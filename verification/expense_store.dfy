/** Recording, correcting and summing expenses. A correction is read in one transaction and
    committed in a later one, with anything in between. */
module ExpenseStore {
  import opened Options
  import opened Idempotency
  import opened Money

  /** `amount` counts ten-thousandths. A row's id is its position. */
  datatype Row = Row(amount: nat, currency: string, kind: Kind, source: nat, version: nat, active: bool)

  datatype State = State(rows: seq<Row>, records: map<Key, Record>, nextId: nat)

  // ---- The operations on values -------------------------------------------------------------------

  datatype AddRequest = AddRequest(key: Key, digest: nat, amount: Decimal, currency: string, aborts: bool)

  datatype CorrectRequest = CorrectRequest(id: nat, key: Key, digest: nat, amount: Decimal, aborts: bool)

  /** A completed request: its row, its record, two more fresh ids. */
  function WithRow(s: State, rows: seq<Row>, row: Row, key: Key, digest: nat): State {
    State(rows + [row], s.records[key := Record(Some(digest), Some(Accepted(|rows|, s.nextId, s.nextId + 1, true)), Completed)], s.nextId + 2)
  }

  /** What a claim that is not new answers. */
  function Refusal(c: Claim): Response
    requires !c.Created?
  {
    match c
    case Replay(outcome) => if outcome.Some? then Ok(outcome.value) else Error("EMPTY_OUTCOME")
    case ClaimDeleted => Deleted
    case Conflict => Error("IDEMPOTENCY_CONFLICT")
    case InProgress => Error("BRAIN_UNAVAILABLE")
  }

  /** The amount travels as its four-decimal text; the currency column holds three letters. */
  function Add(s: State, req: AddRequest): (State, Response) {
    if !MoneyAccepted(req.amount, req.currency) then (s, Error("VALIDATION_FAILED"))
    else
      var claim := ClaimRequest(s.records, req.key, req.digest);
      if !claim.Created? then (s, Refusal(claim))
      else if req.aborts || |req.currency| != 3 then (s, Error("ABORTED"))
      else
        var row := Row(Units(Parse4(Format4(req.amount))), req.currency, Expense, s.nextId, 1, true);
        (WithRow(s, s.rows, row, req.key, req.digest), Ok(Accepted(|s.rows|, s.nextId, s.nextId + 1, true)))
  }

  /** The first transaction of a correction. */
  function ReadActive(rows: seq<Row>, id: nat): Option<Row> {
    if id < |rows| && rows[id].active then Some(rows[id]) else None
  }

  /** The second transaction, with what the first one read. */
  function Correct(s: State, req: CorrectRequest, read: Option<Row>): (State, Response) {
    if read.None? then (s, Error("NOT_FOUND"))
    else
      var was := read.value;
      if !MoneyAccepted(req.amount, was.currency) then (s, Error("VALIDATION_FAILED"))
      else
        var claim := ClaimRequest(s.records, req.key, req.digest);
        if !claim.Created? then (s, Refusal(claim))
        else if !(req.id < |s.rows| && s.rows[req.id].active && s.rows[req.id].version == was.version) then (s, Error("VERSION_CONFLICT"))
        else if req.aborts then (s, Error("ABORTED"))
        else
          var rows := s.rows[req.id := s.rows[req.id].(active := false, version := was.version + 1)];
          var row := Row(Units(req.amount), was.currency, was.kind, s.nextId, was.version + 1, true);
          (WithRow(s, rows, row, req.key, req.digest), Ok(Accepted(|s.rows|, s.nextId, s.nextId + 1, true)))
  }

  // ---- The ledger the owner has in mind -----------------------------------------------------------

  /** One expense as the owner sees it: its latest amount and how often it was corrected. */
  datatype Line = Line(amount: nat, currency: string, corrections: nat)

  /** The lines, the current row of each line, and the line each row was written for. */
  datatype Book = Book(lines: seq<Line>, latest: seq<nat>, lineOf: seq<nat>)

  function BookAdd(b: Book, amount: nat, currency: string): Book {
    Book(b.lines + [Line(amount, currency, 0)], b.latest + [|b.lineOf|], b.lineOf + [|b.lines|])
  }

  /** The new row becomes the latest of the line that row `id` was written for. */
  function BookCorrect(b: Book, id: nat, amount: nat): Book {
    if id < |b.lineOf| && b.lineOf[id] < |b.lines| == |b.latest| then
      var c := b.lineOf[id];
      Book(b.lines[c := Line(amount, b.lines[c].currency, b.lines[c].corrections + 1)], b.latest[c := |b.lineOf|], b.lineOf + [c])
    else b
  }

  /** Rows and lines fit: a line's latest row is its only active one, with its amount, and with one
      plus the number of corrections both as version and as the number of rows of the line. */
  ghost predicate RowFits(rows: seq<Row>, b: Book, r: nat)
    requires r < |rows| == |b.lineOf| && |b.lines| == |b.latest|
  {
    var c := b.lineOf[r];
    && c < |b.lines| && rows[r].currency == b.lines[c].currency && |rows[r].currency| == 3 && CurrencyMatches(rows[r].currency)
    && (rows[r].active <==> b.latest[c] == r)
    && 0 < rows[r].amount < LIMIT && rows[r].kind.Expense?
  }

  ghost predicate LineFits(rows: seq<Row>, b: Book, c: nat)
    requires c < |b.lines| == |b.latest| && |rows| == |b.lineOf|
  {
    var r := b.latest[c];
    && r < |rows| && b.lineOf[r] == c
    && rows[r].amount == b.lines[c].amount && rows[r].version == 1 + b.lines[c].corrections
    && multiset(b.lineOf)[c] == 1 + b.lines[c].corrections
  }

  ghost predicate Fits(rows: seq<Row>, b: Book) {
    && |rows| == |b.lineOf| && |b.lines| == |b.latest|
    && (forall r: nat | r < |rows| :: RowFits(rows, b, r))
    && (forall c: nat | c < |b.lines| :: LineFits(rows, b, c))
  }

  // ---- Sums ---------------------------------------------------------------------------------------

  /** What a row adds to the summary of a currency. */
  function Share(r: Row, currency: string): nat {
    if r.active && r.currency == currency then r.amount else 0
  }

  function Total(rows: seq<Row>, currency: string): nat {
    if rows == [] then 0 else Total(rows[..|rows| - 1], currency) + Share(rows[|rows| - 1], currency)
  }

  function Head(r: Row, currency: string): nat {
    if r.active && r.currency == currency then 1 else 0
  }

  function Count(rows: seq<Row>, currency: string): nat {
    if rows == [] then 0 else Count(rows[..|rows| - 1], currency) + Head(rows[|rows| - 1], currency)
  }

  function LineTotal(lines: seq<Line>, currency: string): nat {
    if lines == [] then 0
    else LineTotal(lines[..|lines| - 1], currency) + var l := lines[|lines| - 1]; if l.currency == currency then l.amount else 0
  }

  function LineCount(lines: seq<Line>, currency: string): nat {
    if lines == [] then 0
    else LineCount(lines[..|lines| - 1], currency) + if lines[|lines| - 1].currency == currency then 1 else 0
  }

  lemma {:induction false} TotalUpdate(rows: seq<Row>, i: nat, r: Row, currency: string)
    requires i < |rows|
    ensures Total(rows[i := r], currency) + Share(rows[i], currency) == Total(rows, currency) + Share(r, currency)
    ensures Count(rows[i := r], currency) + Head(rows[i], currency) == Count(rows, currency) + Head(r, currency)
    decreases |rows|
  {
    var last := |rows| - 1;
    if i == last {
      assert rows[i := r][..last] == rows[..last];
    } else {
      TotalUpdate(rows[..last], i, r, currency);
      assert rows[i := r][..last] == rows[..last][i := r];
    }
  }

  lemma TotalAppend(rows: seq<Row>, r: Row, currency: string)
    ensures Total(rows + [r], currency) == Total(rows, currency) + Share(r, currency)
    ensures Count(rows + [r], currency) == Count(rows, currency) + Head(r, currency)
  {
    assert (rows + [r])[..|rows|] == rows;
  }

  lemma LineTotalAppend(lines: seq<Line>, l: Line, currency: string)
    ensures LineTotal(lines + [l], currency) == LineTotal(lines, currency) + if l.currency == currency then l.amount else 0
    ensures LineCount(lines + [l], currency) == LineCount(lines, currency) + if l.currency == currency then 1 else 0
  {
    assert (lines + [l])[..|lines|] == lines;
  }

  lemma {:induction false} LineTotalUpdate(lines: seq<Line>, i: nat, l: Line, currency: string)
    requires i < |lines| && l.currency == lines[i].currency
    ensures LineTotal(lines[i := l], currency)
            == LineTotal(lines, currency) + if l.currency == currency then l.amount as int - lines[i].amount as int else 0
    ensures LineCount(lines[i := l], currency) == LineCount(lines, currency)
    decreases |lines|
  {
    var last := |lines| - 1;
    if i == last {
      assert lines[i := l][..last] == lines[..last];
    } else {
      LineTotalUpdate(lines[..last], i, l, currency);
      assert lines[i := l][..last] == lines[..last][i := l];
    }
  }

  /** The summary of the active rows is the summary of the ledger. */
  ghost predicate SumsAgree(rows: seq<Row>, lines: seq<Line>) {
    forall currency :: Total(rows, currency) == LineTotal(lines, currency) && Count(rows, currency) == LineCount(lines, currency)
  }

  /** Each request key that completed accounts for one row. */
  ghost predicate BooksBalance(s: State, b: Book) {
    Fits(s.rows, b) && SumsAgree(s.rows, b.lines) && |s.records| == |s.rows|
  }

  // ---- What each operation keeps ------------------------------------------------------------------

  /** A row as it may look later: retired or not, it tells the same expense. */
  predicate StillTells(before: Row, after: Row) {
    && (before.amount, before.currency, before.kind, before.source) == (after.amount, after.currency, after.kind, after.source)
    && (after.active ==> after == before)
  }

  ghost predicate Frozen(before: seq<Row>, after: seq<Row>) {
    |before| <= |after| && forall r | 0 <= r < |before| :: StillTells(before[r], after[r])
  }

  function BookAfterAdd(s: State, b: Book, req: AddRequest): Book {
    if |Add(s, req).0.rows| > |s.rows| then BookAdd(b, Units(req.amount), req.currency) else b
  }

  function BookAfterCorrect(s: State, b: Book, req: CorrectRequest, read: Option<Row>): Book {
    if |Correct(s, req, read).0.rows| > |s.rows| then BookCorrect(b, req.id, Units(req.amount)) else b
  }

  /** The row was active when read, and tells the same expense now. */
  ghost predicate Snapshot(rows: seq<Row>, id: nat, read: Option<Row>) {
    read.Some? ==> id < |rows| && read.value.active && StillTells(read.value, rows[id])
  }

  lemma AddFits(rows: seq<Row>, b: Book, row: Row)
    requires Fits(rows, b) && |row.currency| == 3 && CurrencyMatches(row.currency) && 0 < row.amount < LIMIT && row.active && row.version == 1 && row.kind.Expense?
    ensures Fits(rows + [row], BookAdd(b, row.amount, row.currency))
  {
    var t, a := rows + [row], BookAdd(b, row.amount, row.currency);
    forall r: nat | r < |t| ensures RowFits(t, a, r) {
      assert r < |rows| ==> RowFits(rows, b, r);
    }
    assert |b.lines| !in multiset(b.lineOf) by {
      forall r: nat | r < |b.lineOf| ensures b.lineOf[r] != |b.lines| {
        assert RowFits(rows, b, r);
      }
    }
    forall c: nat | c < |a.lines| ensures LineFits(t, a, c) {
      assert c < |b.lines| ==> LineFits(rows, b, c);
    }
  }

  lemma CorrectFits(rows: seq<Row>, b: Book, id: nat, row: Row)
    requires Fits(rows, b) && id < |rows| && rows[id].active && b.lineOf[id] < |b.lines|
    requires row.currency == rows[id].currency && 0 < row.amount < LIMIT && row.active && row.version == rows[id].version + 1 && row.kind == rows[id].kind
    ensures Fits(rows[id := rows[id].(active := false, version := row.version)] + [row], BookCorrect(b, id, row.amount))
  {
    var t, a := rows[id := rows[id].(active := false, version := row.version)] + [row], BookCorrect(b, id, row.amount);
    assert RowFits(rows, b, id) && LineFits(rows, b, b.lineOf[id]);
    forall r: nat | r < |t| ensures RowFits(t, a, r) {
      assert r < |rows| ==> RowFits(rows, b, r);
    }
    forall c: nat | c < |a.lines| ensures LineFits(t, a, c) {
      assert LineFits(rows, b, c);
    }
  }

  lemma CorrectSums(rows: seq<Row>, b: Book, id: nat, row: Row)
    requires Fits(rows, b) && SumsAgree(rows, b.lines) && id < |rows| && rows[id].active && b.lineOf[id] < |b.lines|
    requires row.currency == rows[id].currency && row.active
    ensures SumsAgree(rows[id := rows[id].(active := false, version := row.version)] + [row], BookCorrect(b, id, row.amount).lines)
  {
    hide Total, Count, LineTotal, LineCount;
    var retired := rows[id].(active := false, version := row.version);
    var c := b.lineOf[id];
    assert RowFits(rows, b, id) && LineFits(rows, b, c);
    forall currency ensures
        var t, lines := rows[id := retired] + [row], BookCorrect(b, id, row.amount).lines;
        Total(t, currency) == LineTotal(lines, currency) && Count(t, currency) == LineCount(lines, currency)
    {
      TotalUpdate(rows, id, retired, currency);
      TotalAppend(rows[id := retired], row, currency);
      LineTotalUpdate(b.lines, c, Line(row.amount, b.lines[c].currency, b.lines[c].corrections + 1), currency);
    }
  }

  lemma AddSums(rows: seq<Row>, lines: seq<Line>, row: Row)
    requires SumsAgree(rows, lines) && row.active
    ensures SumsAgree(rows + [row], lines + [Line(row.amount, row.currency, 0)])
  {
    hide Total, Count, LineTotal, LineCount;
    forall currency ensures
        var t, l := rows + [row], lines + [Line(row.amount, row.currency, 0)];
        Total(t, currency) == LineTotal(l, currency) && Count(t, currency) == LineCount(l, currency)
    {
      TotalAppend(rows, row, currency);
      LineTotalAppend(lines, Line(row.amount, row.currency, 0), currency);
    }
  }

  lemma AddKeepsInv(s: State, b: Book, req: AddRequest)
    requires BooksBalance(s, b)
    ensures BooksBalance(Add(s, req).0, BookAfterAdd(s, b, req)) && Frozen(s.rows, Add(s, req).0.rows)
  {
    hide Fits, SumsAgree, Total, Format4, Parse4, DigitCount, Pow10;
    if |Add(s, req).0.rows| > |s.rows| {
      FormatIsExact(req.amount);
      AcceptedExactly(req.amount);
      var row := Row(Units(req.amount), req.currency, Expense, s.nextId, 1, true);
      AddFits(s.rows, b, row);
      AddSums(s.rows, b.lines, row);
    }
  }

  lemma CorrectKeepsInv(s: State, b: Book, req: CorrectRequest, read: Option<Row>)
    requires BooksBalance(s, b) && Snapshot(s.rows, req.id, read)
    ensures BooksBalance(Correct(s, req, read).0, BookAfterCorrect(s, b, req, read)) && Frozen(s.rows, Correct(s, req, read).0.rows)
  {
    hide SumsAgree, Total, DigitCount, Pow10, LineFits;
    if |Correct(s, req, read).0.rows| > |s.rows| {
      AcceptedExactly(req.amount);
      var was := read.value;
      assert RowFits(s.rows, b, req.id);
      var row := Row(Units(req.amount), was.currency, was.kind, s.nextId, was.version + 1, true);
      CorrectFits(s.rows, b, req.id, row);
      CorrectSums(s.rows, b, req.id, row);
    }
  }

  // ---- Whole runs ---------------------------------------------------------------------------------

  datatype Event = Adds(add: AddRequest) | Corrects(correct: CorrectRequest, readAt: nat)

  datatype Full = Full(s: State, b: Book)

  function Apply(f: Full, e: Event, read: Option<Row>): Full {
    match e
    case Adds(req) => Full(Add(f.s, req).0, BookAfterAdd(f.s, f.b, req))
    case Corrects(req, _) => Full(Correct(f.s, req, read).0, BookAfterCorrect(f.s, f.b, req, read))
  }

  /** What a correction read, in the state of its first transaction. */
  function ReadOf(fs: seq<Full>, e: Event): Option<Row> {
    if e.Corrects? && e.readAt < |fs| then ReadActive(fs[e.readAt].s.rows, e.correct.id) else None
  }

  ghost predicate Run(fs: seq<Full>, es: seq<Event>) {
    && |fs| == |es| + 1
    && fs[0].s.rows == [] && fs[0].s.records == map[] && fs[0].b == Book([], [], [])
    && forall i | 0 <= i < |es| :: (es[i].Corrects? ==> es[i].readAt <= i) && fs[i + 1] == Apply(fs[i], es[i], ReadOf(fs, es[i]))
  }

  lemma FrozenTransitive(a: seq<Row>, b: seq<Row>, c: seq<Row>)
    requires Frozen(a, b) && Frozen(b, c)
    ensures Frozen(a, c)
  {
    forall r | 0 <= r < |a| ensures StillTells(a[r], c[r]) {
      assert StillTells(a[r], b[r]) && StillTells(b[r], c[r]);
    }
  }

  lemma SnapshotOfEarlier(before: seq<Row>, after: seq<Row>, id: nat)
    requires Frozen(before, after)
    ensures Snapshot(after, id, ReadActive(before, id))
  {
  }

  /** Up to every point of a run: the invariant holds, and each earlier row still tells its expense. */
  lemma {:induction false} RunKeepsInv(fs: seq<Full>, es: seq<Event>, j: nat)
    requires Run(fs, es) && j < |fs|
    ensures BooksBalance(fs[j].s, fs[j].b)
    ensures forall i | 0 <= i <= j :: Frozen(fs[i].s.rows, fs[j].s.rows)
  {
    hide BooksBalance, Add, Correct, Frozen, Snapshot;
    if j == 0 {
      EmptyBookFits(fs[0]);
    } else {
      RunKeepsInv(fs, es, j - 1);
      var f, e := fs[j - 1], es[j - 1];
      match e {
        case Adds(req) => AddKeepsInv(f.s, f.b, req);
        case Corrects(req, readAt) =>
          SnapshotOfEarlier(fs[readAt].s.rows, f.s.rows, req.id);
          CorrectKeepsInv(f.s, f.b, req, ReadOf(fs, e));
      }
      forall i | 0 <= i <= j ensures Frozen(fs[i].s.rows, fs[j].s.rows) {
        if i < j {
          FrozenTransitive(fs[i].s.rows, f.s.rows, fs[j].s.rows);
        } else {
          FrozenItself(fs[j].s.rows);
        }
      }
    }
  }

  lemma FrozenItself(rows: seq<Row>)
    ensures Frozen(rows, rows)
  {
  }

  lemma EmptyBookFits(f: Full)
    requires f.s.rows == [] && f.s.records == map[] && f.b == Book([], [], [])
    ensures BooksBalance(f.s, f.b) && Frozen(f.s.rows, f.s.rows)
  {
  }

  /** Each correction chain has exactly one active row. Its version is one plus the number of
      corrections, which is also the number of rows of the chain, and its amount is the latest. */
  lemma OneActiveRowPerChain(fs: seq<Full>, es: seq<Event>, j: nat, c: nat)
    requires Run(fs, es) && j < |fs| && c < |fs[j].b.lines|
    ensures var rows, b := fs[j].s.rows, fs[j].b;
            && |b.lineOf| == |rows|
            && exists r: nat ::
                 && r < |rows| && b.lineOf[r] == c && rows[r].active
                 && rows[r].version == 1 + b.lines[c].corrections == multiset(b.lineOf)[c]
                 && rows[r].amount == b.lines[c].amount && rows[r].currency == b.lines[c].currency
                 && forall q: nat | q < |rows| && b.lineOf[q] == c && rows[q].active :: q == r
  {
    RunKeepsInv(fs, es, j);
    var rows, b := fs[j].s.rows, fs[j].b;
    assert LineFits(rows, b, c);
    var r := b.latest[c];
    assert RowFits(rows, b, r);
    forall q: nat | q < |rows| && b.lineOf[q] == c && rows[q].active ensures q == r {
      assert RowFits(rows, b, q);
    }
  }

  /** The summary of active rows is at every point the sum of the lines' latest amounts, and every
      stored amount is positive and fits the column. */
  lemma SummaryFollowsLedger(fs: seq<Full>, es: seq<Event>, j: nat, currency: string)
    requires Run(fs, es) && j < |fs|
    ensures Total(fs[j].s.rows, currency) == LineTotal(fs[j].b.lines, currency)
    ensures Count(fs[j].s.rows, currency) == LineCount(fs[j].b.lines, currency)
    ensures forall r | r in fs[j].s.rows :: 0 < r.amount < LIMIT
    ensures |fs[j].s.rows| == |fs[j].s.records|
  {
    RunKeepsInv(fs, es, j);
    forall r | r in fs[j].s.rows ensures 0 < r.amount < LIMIT {
      var i: nat :| i < |fs[j].s.rows| && fs[j].s.rows[i] == r;
      assert RowFits(fs[j].s.rows, fs[j].b, i);
    }
  }

  // ---- Retries ------------------------------------------------------------------------------------

  lemma StepKeepsRecord(f: Full, e: Event, read: Option<Row>, key: Key)
    requires key in f.s.records
    ensures key in Apply(f, e, read).s.records && Apply(f, e, read).s.records[key] == f.s.records[key]
  {
    hide MoneyAccepted, Format4, Parse4, Units, BookAdd, BookCorrect;
  }

  lemma {:induction false} RecordsKept(fs: seq<Full>, es: seq<Event>, i: nat, j: nat, key: Key)
    requires Run(fs, es) && i <= j < |fs| && key in fs[i].s.records
    ensures key in fs[j].s.records && fs[j].s.records[key] == fs[i].s.records[key]
  {
    hide Apply, ReadOf;
    if i < j {
      RecordsKept(fs, es, i, j - 1, key);
      assert fs[j - 1 + 1] == Apply(fs[j - 1], es[j - 1], ReadOf(fs, es[j - 1]));
      StepKeepsRecord(fs[j - 1], es[j - 1], ReadOf(fs, es[j - 1]), key);
    }
  }

  /** Whoever retries a committed correction with the same key and content gets the stored outcome
      exactly when the retry read the row before the correction committed, and NOT_FOUND otherwise;
      either way nothing changes. */
  lemma RetryAnswer(fs: seq<Full>, es: seq<Event>, i: nat, j: nat)
    requires Run(fs, es) && i < j < |es| && es[i].Corrects? && es[j].Corrects? && es[j].correct == es[i].correct
    requires |fs[i + 1].s.rows| > |fs[i].s.rows|
    ensures var first := Correct(fs[i].s, es[i].correct, ReadOf(fs, es[i])).1;
            var read := es[j].readAt <= i && es[i].correct.id < |fs[es[j].readAt].s.rows|;
            first.Ok? && Correct(fs[j].s, es[j].correct, ReadOf(fs, es[j])) == (fs[j].s, if read then first else Error("NOT_FOUND"))
  {
    hide MoneyAccepted, BooksBalance;
    var req := es[i].correct;
    assert fs[i + 1] == Apply(fs[i], es[i], ReadOf(fs, es[i]));
    RecordsKept(fs, es, i + 1, j, req.key);
    if i < es[j].readAt {
      RetryIsNotFound(fs, es, i, j);
    } else {
      RunKeepsInv(fs, es, i);
      ReadTellsTheSame(fs[es[j].readAt].s.rows, fs[i].s.rows, req.id);
      ReadTellsTheSame(fs[es[i].readAt].s.rows, fs[i].s.rows, req.id);
    }
  }

  /** A row that is active later was the same when it was read, if it was there. */
  lemma ReadTellsTheSame(before: seq<Row>, after: seq<Row>, id: nat)
    requires Frozen(before, after) && id < |after| && after[id].active
    ensures ReadActive(before, id) == if id < |before| then Some(after[id]) else None
  {
    if id < |before| {
      assert StillTells(before[id], after[id]);
    }
  }

  /** An add under a new key stores its expense if and only if the amount is acceptable, the currency is
      three capitals and the transaction does not fail; the new row is active, of version one and of
      that amount and currency. */
  lemma AddCommitsIff(s: State, req: AddRequest)
    requires req.key !in s.records
    ensures Add(s, req).1.Ok? <==> AmountAccepted(req.amount) && !req.aborts && |req.currency| == 3 && forall i | 0 <= i < 3 :: 'A' <= req.currency[i] <= 'Z'
    ensures Add(s, req).1.Ok? ==>
              var r := Add(s, req).1.outcome;
              Add(s, req).0.rows == s.rows + [Row(Units(req.amount), req.currency, Expense, r.source, 1, true)] && r.target == |s.rows|
    ensures !Add(s, req).1.Ok? ==> Add(s, req).0 == s
  {
    if AmountAccepted(req.amount) {
      FormatIsExact(req.amount);
    }
    CurrencyPattern(req.currency);
  }

  /** In every run, a correction under a new key with an acceptable amount commits if and only if the row
      was there when it was read, nobody has corrected it up to the commit, and the transaction does not
      fail. Then the row is retired and its line has the new amount, in the same currency. */
  lemma CorrectionCommitsIff(fs: seq<Full>, es: seq<Event>, j: nat)
    requires Run(fs, es) && j < |es| && es[j].Corrects? && es[j].correct.key !in fs[j].s.records && AmountAccepted(es[j].correct.amount)
    ensures var req, s, after := es[j].correct, fs[j].s, fs[j + 1].s;
            && (|after.rows| > |s.rows| <==> req.id < |fs[es[j].readAt].s.rows| && req.id < |s.rows| && s.rows[req.id].active && !req.aborts)
            && (|after.rows| > |s.rows| ==>
                  && |after.rows| == |s.rows| + 1 && !after.rows[req.id].active && after.rows[|s.rows|].active
                  && after.rows[|s.rows|].amount == Units(req.amount)
                  && after.rows[|s.rows|].currency == s.rows[req.id].currency
                  && after.rows[|s.rows|].version == s.rows[req.id].version + 1)
            && (|after.rows| <= |s.rows| ==> after == s)
  {
    hide BooksBalance, Units;
    var req := es[j].correct;
    RunKeepsInv(fs, es, j);
    var read := ReadOf(fs, es[j]);
    assert fs[j + 1] == Apply(fs[j], es[j], read);
    assert Frozen(fs[es[j].readAt].s.rows, fs[j].s.rows);
    if req.id < |fs[j].s.rows| && fs[j].s.rows[req.id].active {
      ReadTellsTheSame(fs[es[j].readAt].s.rows, fs[j].s.rows, req.id);
      StoredCurrencyMatches(fs[j], req.id);
    }
  }

  lemma StoredCurrencyMatches(f: Full, id: nat)
    requires BooksBalance(f.s, f.b) && id < |f.s.rows|
    ensures CurrencyMatches(f.s.rows[id].currency)
  {
    assert RowFits(f.s.rows, f.b, id);
  }

  /** An accepted request under a new key fails exactly when the transaction does or when the currency
      ends in a line feed, which the pattern accepts and the three-letter column refuses. */
  lemma LineFeedIsRefusedByColumn(s: State, req: AddRequest)
    requires MoneyAccepted(req.amount, req.currency) && req.key !in s.records
    ensures Add(s, req).1 == Error("ABORTED") <==> req.aborts || req.currency[|req.currency| - 1] == '\n'
    ensures Add(s, req).1.Error? ==> Add(s, req).0 == s
  {
  }

  /** After a correction of a row has committed, every request that reads later finds nothing. */
  lemma RetryIsNotFound(fs: seq<Full>, es: seq<Event>, i: nat, j: nat)
    requires Run(fs, es) && i < j < |es| && es[i].Corrects? && es[j].Corrects?
    requires |fs[i + 1].s.rows| > |fs[i].s.rows|
    requires es[j].correct.id == es[i].correct.id && i < es[j].readAt
    ensures Correct(fs[j].s, es[j].correct, ReadOf(fs, es[j])) == (fs[j].s, Error("NOT_FOUND"))
  {
    var id := es[i].correct.id;
    assert id < |fs[i + 1].s.rows| && !fs[i + 1].s.rows[id].active;
    RunKeepsInv(fs, es, es[j].readAt);
    assert Frozen(fs[i + 1].s.rows, fs[es[j].readAt].s.rows);
    assert StillTells(fs[i + 1].s.rows[id], fs[es[j].readAt].s.rows[id]);
  }

  /** Two corrections of one row never both commit, whatever they read and when. */
  lemma CorrectedOnce(fs: seq<Full>, es: seq<Event>, i: nat, j: nat)
    requires Run(fs, es) && i < j < |es| && es[i].Corrects? && es[j].Corrects?
    requires |fs[i + 1].s.rows| > |fs[i].s.rows| && es[j].correct.id == es[i].correct.id
    ensures fs[j + 1].s == fs[j].s
  {
    var id := es[i].correct.id;
    assert id < |fs[i + 1].s.rows| && !fs[i + 1].s.rows[id].active;
    RunKeepsInv(fs, es, j);
    assert Frozen(fs[i + 1].s.rows, fs[j].s.rows);
    assert StillTells(fs[i + 1].s.rows[id], fs[j].s.rows[id]);
  }

  // ---- The store ----------------------------------------------------------------------------------

  class Store {
    var rows: seq<Row>
    var records: map<Key, Record>
    var nextId: nat
    ghost var book: Book

    ghost function Now(): State
      reads this
    {
      State(rows, records, nextId)
    }

    ghost predicate Valid()
      reads this
    {
      BooksBalance(Now(), book)
    }

    constructor ()
      ensures Valid() && Now() == State([], map[], 0) && book == Book([], [], [])
    {
      rows, records, nextId, book := [], map[], 0, Book([], [], []);
    }

    /** The new expense row and the completed record, in one transaction. */
    method Insert(row: Row, key: Key, digest: nat) returns (outcome: Outcome)
      modifies this
      ensures Now() == WithRow(old(Now()), old(rows), row, key, digest) && book == old(book)
      ensures outcome == Accepted(|old(rows)|, old(nextId), old(nextId) + 1, true)
    {
      outcome := Accepted(|rows|, nextId, nextId + 1, true);
      rows := rows + [row];
      records := records[key := Record(Some(digest), Some(outcome), Completed)];
      nextId := nextId + 2;
    }

    method AddExpense(req: AddRequest) returns (r: Response)
      requires Valid()
      modifies this
      ensures Valid() && (Now(), r) == Add(old(Now()), req) && book == BookAfterAdd(old(Now()), old(book), req)
      ensures Frozen(old(rows), rows)
    {
      hide BooksBalance, Frozen;
      AddKeepsInv(Now(), book, req);
      if !MoneyAccepted(req.amount, req.currency) {
        return Error("VALIDATION_FAILED");
      }
      var claim := ClaimRequest(records, req.key, req.digest);
      if !claim.Created? {
        return Refusal(claim);
      }
      if req.aborts || |req.currency| != 3 {
        return Error("ABORTED");
      }
      ghost var nowBook := BookAfterAdd(Now(), book, req);
      var text := Format4(req.amount);
      var outcome := Insert(Row(Units(Parse4(text)), req.currency, Expense, nextId, 1, true), req.key, req.digest);
      book := nowBook;
      return Ok(outcome);
    }

    /** The second transaction of a correction; `read` is what the first one saw. */
    method CommitCorrection(req: CorrectRequest, read: Option<Row>) returns (r: Response)
      requires Valid() && Snapshot(rows, req.id, read)
      modifies this
      ensures Valid() && (Now(), r) == Correct(old(Now()), req, read) && book == BookAfterCorrect(old(Now()), old(book), req, read)
      ensures Frozen(old(rows), rows)
    {
      hide BooksBalance, Frozen;
      CorrectKeepsInv(Now(), book, req, read);
      if read.None? {
        return Error("NOT_FOUND");
      }
      var was := read.value;
      if !MoneyAccepted(req.amount, was.currency) {
        return Error("VALIDATION_FAILED");
      }
      var claim := ClaimRequest(records, req.key, req.digest);
      if !claim.Created? {
        return Refusal(claim);
      }
      if !(req.id < |rows| && rows[req.id].active && rows[req.id].version == was.version) {
        return Error("VERSION_CONFLICT");
      }
      if req.aborts {
        return Error("ABORTED");
      }
      ghost var nowBook := BookAfterCorrect(Now(), book, req, read);
      rows := rows[req.id := rows[req.id].(active := false, version := was.version + 1)];
      var outcome := Insert(Row(Units(req.amount), was.currency, was.kind, nextId, was.version + 1, true), req.key, req.digest);
      book := nowBook;
      return Ok(outcome);
    }

    /** Total and number of records per currency over the active rows, for all currencies or for one:
        those of the ledger, for exactly the currencies that have a record. */
    method Summary(filter: Option<string>) returns (totals: map<string, (nat, nat)>)
      requires Valid()
      ensures forall c :: c in totals <==> LineCount(book.lines, c) > 0 && (filter.None? || c == filter.value)
      ensures forall c | c in totals :: totals[c] == (LineTotal(book.lines, c), LineCount(book.lines, c))
    {
      hide Total, Count, LineTotal, LineCount, Fits;
      totals := map[];
      NothingSummed();
      for i := 0 to |rows|
        invariant forall c :: c in totals <==> Count(rows[..i], c) > 0 && (filter.None? || c == filter.value)
        invariant forall c | c in totals :: totals[c] == (Total(rows[..i], c), Count(rows[..i], c))
      {
        assert rows[..i + 1] == rows[..i] + [rows[i]];
        var c := rows[i].currency;
        forall d ensures Total(rows[..i + 1], d) == Total(rows[..i], d) + Share(rows[i], d)
                 ensures Count(rows[..i + 1], d) == Count(rows[..i], d) + Head(rows[i], d)
        {
          TotalAppend(rows[..i], rows[i], d);
        }
        NoneMeansNothing(rows[..i], c);
        if rows[i].active && (filter.None? || c == filter.value) {
          var (total, count) := if c in totals then totals[c] else (0, 0);
          totals := totals[c := (total + rows[i].amount, count + 1)];
        }
      }
      assert rows[..|rows|] == rows;
    }
  }

  lemma NothingSummed()
    ensures forall c :: Count([], c) == 0
  {
  }

  lemma {:induction false} NoneMeansNothing(rows: seq<Row>, c: string)
    ensures Count(rows, c) == 0 ==> Total(rows, c) == 0
  {
    if rows != [] {
      NoneMeansNothing(rows[..|rows| - 1], c);
    }
  }
}
