/** The table of MCP sessions: bounded, expiring, filled by `initialize` and checked by every
    other request. */
module Sessions {

  /** A registration: its token and the moment it was made. */
  datatype Session = Session(id: nat, seen: int)

  predicate Expired(s: Session, ttl: int, now: int) {
    now - s.seen > ttl
  }

  /** The last `max` of all registrations ever made. */
  function Recent(log: seq<Session>, max: int): seq<Session> {
    if max <= 0 then [] else if |log| <= max then log else log[|log| - max..]
  }

  /** What a request with this token deserves: a recent registration that is young enough. */
  ghost predicate Deserved(log: seq<Session>, max: int, ttl: int, id: nat, now: int) {
    exists s :: s in Recent(log, max) && s.id == id && !Expired(s, ttl, now)
  }

  /** By place and age: one of the last `max` registrations carries the token, and not more than the TTL
      has passed since. */
  lemma DeservedMeans(log: seq<Session>, max: int, ttl: int, id: nat, now: int)
    ensures Deserved(log, max, ttl, id, now) <==>
            exists n :: 0 <= n < |log| && |log| - max <= n && log[n].id == id && now - log[n].seen <= ttl
  {
    var recent := Recent(log, max);
    if s :| s in recent && s.id == id && !Expired(s, ttl, now) {
      var i :| 0 <= i < |recent| && recent[i] == s;
      var n := |log| - |recent| + i;
      assert log[n] == s;
    }
    if n :| 0 <= n < |log| && |log| - max <= n && log[n].id == id && now - log[n].seen <= ttl {
      assert recent[n - (|log| - |recent|)] == log[n];
    }
  }

  ghost predicate InOrder(log: seq<Session>) {
    forall i, j | 0 <= i <= j < |log| :: log[i].seen <= log[j].seen
  }

  ghost predicate DistinctIds(log: seq<Session>) {
    forall i, j | 0 <= i < j < |log| :: log[i].id != log[j].id
  }

  /** `table` is `full`, in its order, except that entries expired by `clock` may be missing. */
  ghost predicate Thinned(table: seq<Session>, full: seq<Session>, ttl: int, clock: int)
    decreases |full|
  {
    if full == [] then table == []
    else
      || (table != [] && table[0] == full[0] && Thinned(table[1..], full[1..], ttl, clock))
      || (Expired(full[0], ttl, clock) && Thinned(table, full[1..], ttl, clock))
  }

  ghost predicate Inv(table: seq<Session>, log: seq<Session>, max: int, ttl: int, clock: int) {
    && InOrder(log) && DistinctIds(log) && (forall s | s in log :: s.seen <= clock)
    && Thinned(table, Recent(log, max), ttl, clock)
    && (max <= 0 ==> log == [])
  }

  function Purge(table: seq<Session>, ttl: int, now: int): seq<Session> {
    if table == [] then []
    else if Expired(table[0], ttl, now) then Purge(table[1..], ttl, now)
    else [table[0]] + Purge(table[1..], ttl, now)
  }

  lemma {:induction false} PurgeAppend(a: seq<Session>, b: Session, ttl: int, now: int)
    ensures Purge(a + [b], ttl, now) == Purge(a, ttl, now) + if Expired(b, ttl, now) then [] else [b]
  {
    if a != [] {
      PurgeAppend(a[1..], b, ttl, now);
      assert (a + [b])[1..] == a[1..] + [b];
    } else {
      assert a + [b] == [b];
    }
  }

  // ---- Thinning -----------------------------------------------------------------------------------

  lemma {:induction false} ThinnedLater(table: seq<Session>, full: seq<Session>, ttl: int, clock: int, now: int)
    requires Thinned(table, full, ttl, clock) && clock <= now
    ensures Thinned(table, full, ttl, now)
    decreases |full|
  {
    if full != [] {
      if table != [] && table[0] == full[0] && Thinned(table[1..], full[1..], ttl, clock) {
        ThinnedLater(table[1..], full[1..], ttl, clock, now);
      } else {
        ThinnedLater(table, full[1..], ttl, clock, now);
      }
    }
  }

  /** Members of a thinned table: all from the full one, and every unexpired one. */
  lemma {:induction false} ThinnedMembers(table: seq<Session>, full: seq<Session>, ttl: int, clock: int)
    requires Thinned(table, full, ttl, clock)
    ensures |table| <= |full|
    ensures forall s | s in table :: s in full
    ensures forall s | s in full && !Expired(s, ttl, clock) :: s in table
    decreases |full|
  {
    if full != [] {
      assert full == [full[0]] + full[1..];
      if table != [] && table[0] == full[0] && Thinned(table[1..], full[1..], ttl, clock) {
        ThinnedMembers(table[1..], full[1..], ttl, clock);
        assert table == [table[0]] + table[1..];
      } else {
        ThinnedMembers(table, full[1..], ttl, clock);
      }
    }
  }

  /** A purge erases the difference between a thinned table and the full one. */
  lemma {:induction false} PurgeForgets(table: seq<Session>, full: seq<Session>, ttl: int, clock: int, now: int)
    requires Thinned(table, full, ttl, clock) && clock <= now
    ensures Purge(table, ttl, now) == Purge(full, ttl, now)
    decreases |full|
  {
    if full != [] {
      if table != [] && table[0] == full[0] && Thinned(table[1..], full[1..], ttl, clock) {
        PurgeForgets(table[1..], full[1..], ttl, clock, now);
      } else {
        PurgeForgets(table, full[1..], ttl, clock, now);
      }
    }
  }

  lemma {:induction false} PurgeThins(full: seq<Session>, ttl: int, now: int)
    ensures Thinned(Purge(full, ttl, now), full, ttl, now)
  {
    if full != [] {
      PurgeThins(full[1..], ttl, now);
      var p := Purge(full, ttl, now);
      assert !Expired(full[0], ttl, now) ==> p[1..] == Purge(full[1..], ttl, now);
    }
  }

  lemma {:induction false} PurgeNothing(full: seq<Session>, ttl: int, now: int)
    requires InOrder(full) && (full == [] || !Expired(full[0], ttl, now))
    ensures Purge(full, ttl, now) == full
  {
    if |full| > 1 {
      assert full[0].seen <= full[1].seen;
      PurgeNothing(full[1..], ttl, now);
    }
  }

  lemma InOrderPrepend(first: Session, rest: seq<Session>)
    requires InOrder(rest) && forall i | 0 <= i < |rest| :: first.seen <= rest[i].seen
    ensures InOrder([first] + rest)
  {
  }

  lemma InOrderTail(full: seq<Session>)
    requires full != [] && InOrder(full)
    ensures InOrder(full[1..]) && forall s | s in full[1..] :: full[0].seen <= s.seen && s in full
  {
    forall s | s in full[1..] ensures full[0].seen <= s.seen && s in full {
      var k :| 0 <= k < |full[1..]| && full[1..][k] == s;
      assert full[k + 1] == s;
    }
  }

  lemma {:induction false} PurgeInOrder(full: seq<Session>, ttl: int, now: int)
    requires InOrder(full)
    ensures InOrder(Purge(full, ttl, now)) && forall s | s in Purge(full, ttl, now) :: s in full
  {
    hide InOrder;
    if full == [] {
      assert Purge(full, ttl, now) == full;
    } else {
      var rest := Purge(full[1..], ttl, now);
      InOrderTail(full);
      PurgeInOrder(full[1..], ttl, now);
      assert forall i | 0 <= i < |rest| :: rest[i] in rest;
      InOrderPrepend(full[0], rest);
    }
  }

  lemma {:induction false} ThinnedAppend(table: seq<Session>, full: seq<Session>, s: Session, ttl: int, clock: int)
    requires Thinned(table, full, ttl, clock)
    ensures Thinned(table + [s], full + [s], ttl, clock)
    decreases |full|
  {
    if full == [] {
      assert table + [s] == [s] && full + [s] == [s] && [s][1..] == [];
      assert Thinned([], [], ttl, clock);
    } else {
      assert (full + [s])[1..] == full[1..] + [s];
      if table != [] && table[0] == full[0] && Thinned(table[1..], full[1..], ttl, clock) {
        ThinnedAppend(table[1..], full[1..], s, ttl, clock);
        assert (table + [s])[1..] == table[1..] + [s];
      } else {
        ThinnedAppend(table, full[1..], s, ttl, clock);
      }
    }
  }

  function Dropped(table: seq<Session>, k: nat): seq<Session>
    requires k < |table|
  {
    table[..k] + table[k + 1..]
  }

  lemma DroppedTail(table: seq<Session>, k: nat)
    requires k < |table|
    ensures k == 0 ==> Dropped(table, k) == table[1..]
    ensures k > 0 ==> Dropped(table, k) != [] && Dropped(table, k)[0] == table[0] && Dropped(table, k)[1..] == Dropped(table[1..], k - 1)
  {
  }

  lemma {:induction false} ThinnedWithout(table: seq<Session>, full: seq<Session>, k: nat, ttl: int, clock: int)
    requires Thinned(table, full, ttl, clock) && k < |table| && Expired(table[k], ttl, clock)
    ensures Thinned(Dropped(table, k), full, ttl, clock)
    decreases |full|
  {
    hide Dropped;
    DroppedTail(table, k);
    if table[0] == full[0] && Thinned(table[1..], full[1..], ttl, clock) {
      if k > 0 {
        ThinnedWithout(table[1..], full[1..], k - 1, ttl, clock);
      }
    } else {
      ThinnedWithout(table, full[1..], k, ttl, clock);
    }
  }

  // ---- One registration ---------------------------------------------------------------------------

  /** Python's `min` over the table: the first of the entries seen earliest. */
  function OldestIndex(table: seq<Session>): (k: nat)
    requires table != []
    ensures k < |table|
    ensures forall i | 0 <= i < |table| :: table[k].seen <= table[i].seen
    ensures forall i | 0 <= i < k :: table[k].seen < table[i].seen
  {
    if |table| == 1 then 0
    else
      var k := OldestIndex(table[..|table| - 1]);
      if table[|table| - 1].seen < table[k].seen then |table| - 1 else k
  }

  lemma OldestComesFirst(table: seq<Session>)
    requires table != [] && InOrder(table)
    ensures OldestIndex(table) == 0
  {
  }

  /** The tail of a purge of recent registrations that leaves room for one more. */
  lemma EvictionThins(full: seq<Session>, max: int, ttl: int, now: int)
    requires InOrder(full) && 0 < |full| == max
    ensures var p := Purge(full, ttl, now);
            Thinned(if |p| < max then p else p[|p| - max + 1..], full[1..], ttl, now)
  {
    hide Thinned;
    var p := Purge(full, ttl, now);
    PurgeThins(full[1..], ttl, now);
    if Expired(full[0], ttl, now) {
      ShorterPurge(full, ttl, now);
    } else {
      PurgeNothing(full, ttl, now);
      PurgeNothingTail(full, ttl, now);
      assert |p| - max + 1 == 1;
    }
  }

  lemma RecentExtends(log: seq<Session>, s: Session, max: int)
    requires max > 0
    ensures Recent(log + [s], max) == if |log| < max then Recent(log, max) + [s] else Recent(log, max)[1..] + [s]
  {
  }

  lemma LogExtends(log: seq<Session>, s: Session)
    requires InOrder(log) && DistinctIds(log) && forall t | t in log :: t.seen <= s.seen && t.id != s.id
    ensures InOrder(log + [s]) && DistinctIds(log + [s]) && forall t | t in log + [s] :: t.seen <= s.seen
  {
  }

  /** What purging, evicting down to `max - 1` and adding leave: again the recent registrations,
      without some expired ones. */
  lemma RegisterKeepsInv(table: seq<Session>, log: seq<Session>, max: int, ttl: int, clock: int, now: int, id: nat)
    requires Inv(table, log, max, ttl, clock) && clock <= now && max > 0
    requires forall s | s in log :: s.id != id
    ensures var p := Purge(table, ttl, now);
            var left := if |p| < max then p else p[|p| - max + 1..];
            Inv(left + [Session(id, now)], log + [Session(id, now)], max, ttl, now)
  {
    hide Thinned, Purge, InOrder, DistinctIds;
    var full, s := Recent(log, max), Session(id, now);
    PurgeForgets(table, full, ttl, clock, now);
    RecentExtends(log, s, max);
    LogExtends(log, s);
    if |log| < max {
      PurgeThins(full, ttl, now);
      ThinnedMembers(Purge(full, ttl, now), full, ttl, now);
      ThinnedAppend(Purge(full, ttl, now), full, s, ttl, now);
    } else {
      RecentInOrder(log, max);
      EvictionThins(full, max, ttl, now);
      var p := Purge(full, ttl, now);
      ThinnedAppend(if |p| < max then p else p[|p| - max + 1..], full[1..], s, ttl, now);
    }
  }

  lemma RecentInOrder(log: seq<Session>, max: int)
    requires InOrder(log)
    ensures InOrder(Recent(log, max)) && forall s | s in Recent(log, max) :: s in log
  {
  }

  lemma ShorterPurge(full: seq<Session>, ttl: int, now: int)
    requires full != [] && Expired(full[0], ttl, now)
    ensures |Purge(full, ttl, now)| < |full|
  {
    PurgeThins(full[1..], ttl, now);
    ThinnedMembers(Purge(full[1..], ttl, now), full[1..], ttl, now);
  }

  lemma PurgeNothingTail(full: seq<Session>, ttl: int, now: int)
    requires full != [] && InOrder(full) && !Expired(full[0], ttl, now)
    ensures Purge(full[1..], ttl, now) == full[1..]
  {
    if |full| > 1 {
      assert full[0].seen <= full[1].seen;
      PurgeNothing(full[1..], ttl, now);
    }
  }

  /** The table accepts exactly the tokens that deserve it, and never outgrows its bound. */
  lemma AcceptedExactly(table: seq<Session>, log: seq<Session>, max: int, ttl: int, clock: int, id: nat, now: int)
    requires Inv(table, log, max, ttl, clock) && clock <= now
    ensures (exists s :: s in table && s.id == id && !Expired(s, ttl, now)) <==> Deserved(log, max, ttl, id, now)
    ensures (exists s :: s in table && s.id == id && now - s.seen <= ttl) <==>
            exists n :: 0 <= n < |log| && |log| - max <= n && log[n].id == id && now - log[n].seen <= ttl
    ensures |table| <= if max > 0 then max else 0
  {
    DeservedMeans(log, max, ttl, id, now);
    ThinnedLater(table, Recent(log, max), ttl, clock, now);
    ThinnedMembers(table, Recent(log, max), ttl, now);
  }

  /** A session that is refused stays refused, however many requests and registrations follow. */
  lemma RefusedForGood(log: seq<Session>, more: seq<Session>, max: int, ttl: int, id: nat, now: int, later: int)
    requires DistinctIds(log + more) && now <= later
    requires (exists s :: s in log && s.id == id) && !Deserved(log, max, ttl, id, now)
    ensures !Deserved(log + more, max, ttl, id, later)
  {
    var all := log + more;
    var i :| 0 <= i < |log| && log[i].id == id;
    assert all[i] == log[i];
    forall s | s in Recent(all, max) && s.id == id ensures Expired(s, ttl, later) {
      var k :| 0 <= k < |all| && all[k] == s && k >= |all| - max;
      assert k == i;
      assert log[i] in Recent(log, max) by {
        assert |log| > max ==> Recent(log, max)[i - (|log| - max)] == log[i];
      }
    }
  }

  lemma InvParts(table: seq<Session>, log: seq<Session>, max: int, ttl: int, clock: int)
    requires Inv(table, log, max, ttl, clock)
    ensures Thinned(table, Recent(log, max), ttl, clock) && InOrder(Recent(log, max)) && (max <= 0 ==> log == [])
  {
  }

  lemma NoSessions(max: int, ttl: int, clock: int)
    ensures Inv([], [], max, ttl, clock)
  {
  }

  class Dispatcher {
    const ttl: int
    const max: int
    var table: seq<Session>
    /** Every successful registration, and the latest moment observed. */
    ghost var log: seq<Session>
    ghost var clock: int

    ghost predicate Valid()
      reads this
    {
      Inv(table, log, max, ttl, clock)
    }

    constructor (ttl: int, max: int, ghost now: int)
      ensures Valid() && this.ttl == ttl && this.max == max && log == [] && clock == now
    {
      this.ttl, this.max := ttl, max;
      table, log, clock := [], [], now;
    }

    method RemoveExpired(now: int)
      modifies this`table
      ensures table == Purge(old(table), ttl, now)
    {
      var all := table;
      table := [];
      for i := 0 to |all|
        invariant table == Purge(all[..i], ttl, now)
      {
        assert all[..i + 1] == all[..i] + [all[i]];
        PurgeAppend(all[..i], all[i], ttl, now);
        if !Expired(all[i], ttl, now) {
          table := table + [all[i]];
        }
      }
      assert all[..|all|] == all;
    }

    /** Evicts the oldest until one more fits. False stands for the error of taking the minimum of
        an empty table, which a bound below one brings about. */
    method MakeRoom() returns (ok: bool)
      requires InOrder(table)
      modifies this`table
      ensures ok <==> max > 0
      ensures !ok ==> table == []
      ensures ok ==> table == if |old(table)| < max then old(table) else old(table)[|old(table)| - max + 1..]
    {
      ghost var was := table;
      ghost var k := 0;
      while |table| >= max
        invariant 0 <= k <= |was| && table == was[k..] && (k > 0 ==> max <= 0 || |table| >= max - 1)
        decreases |table|
      {
        if table == [] {
          return false;
        }
        var oldest := OldestIndex(table);
        OldestComesFirst(table);
        table := table[..oldest] + table[oldest + 1..];
        k := k + 1;
      }
      return true;
    }

    /** `token` is a fresh random one. */
    method RegisterSession(now: int, token: nat) returns (ok: bool)
      requires Valid() && clock <= now
      requires forall s | s in log :: s.id != token
      modifies this
      ensures Valid() && clock == now
      ensures ok <==> max > 0
      ensures log == if ok then old(log) + [Session(token, now)] else old(log)
      ensures ok ==> Deserved(log, max, ttl, token, now) || ttl < 0
      ensures |table| <= if max > 0 then max else 0
    {
      hide Thinned, Purge, InOrder, Inv, Recent;
      ghost var was, full := table, Recent(log, max);
      InvParts(table, log, max, ttl, clock);
      PurgeForgets(was, full, ttl, clock, now);
      PurgeInOrder(full, ttl, now);
      RemoveExpired(now);
      ok := MakeRoom();
      if ok {
        RegisterKeepsInv(was, log, max, ttl, clock, now, token);
        RecentExtends(log, Session(token, now), max);
        table := table + [Session(token, now)];
        log, clock := log + [Session(token, now)], now;
        assert Session(token, now) in Recent(log, max);
      } else {
        clock := now;
        NoSessions(max, ttl, now);
      }
      AcceptedExactly(table, log, max, ttl, clock, token, now);
    }

    /** The session check before any request other than `initialize`; `has` is false when the
        client sent no token. */
    method CheckSession(has: bool, id: nat, now: int) returns (ok: bool)
      requires Valid() && clock <= now
      modifies this
      ensures Valid() && clock == now && log == old(log)
      ensures ok <==> has && Deserved(log, max, ttl, id, now)
      ensures ok <==> has && exists n :: 0 <= n < |log| && |log| - max <= n && log[n].id == id && now - log[n].seen <= ttl
      ensures |table| <= if max > 0 then max else 0
      ensures forall s :: s in table <==> s in old(table) && !(has && s.id == id && Expired(s, ttl, now))
    {
      AcceptedExactly(table, log, max, ttl, clock, id, now);
      DeservedMeans(log, max, ttl, id, now);
      ThinnedLater(table, Recent(log, max), ttl, clock, now);
      clock := now;
      var k := 0;
      while k < |table| && table[k].id != id
        invariant 0 <= k <= |table| && forall i | 0 <= i < k :: table[i].id != id
      {
        k := k + 1;
      }
      if !has || k == |table| {
        return false;
      }
      OneEntryPerId(table, log, max, ttl, now, k);
      if Expired(table[k], ttl, now) {
        ThinnedWithout(table, Recent(log, max), k, ttl, now);
        EntryDropped(table, log, max, ttl, now, k);
        table := table[..k] + table[k + 1..];
        return false;
      }
      return true;
    }
  }

  lemma EntryDropped(table: seq<Session>, log: seq<Session>, max: int, ttl: int, clock: int, k: nat)
    requires Inv(table, log, max, ttl, clock) && k < |table|
    ensures forall s :: s in Dropped(table, k) <==> s in table && s.id != table[k].id
  {
    hide Thinned, InOrder, Recent;
    OneEntryPerId(table, log, max, ttl, clock, k);
    TableIsDistinct(table, log, max, ttl, clock);
    forall s | s in table && s.id != table[k].id ensures s in Dropped(table, k) {
      var i :| 0 <= i < |table| && table[i] == s;
      assert s == Dropped(table, k)[if i < k then i else i - 1];
    }
  }

  /** No entry occurs twice. */
  lemma TableIsDistinct(table: seq<Session>, log: seq<Session>, max: int, ttl: int, clock: int)
    requires Inv(table, log, max, ttl, clock)
    ensures DistinctIds(table)
  {
    assert DistinctIds(Recent(log, max));
    ThinnedDistinct(table, Recent(log, max), ttl, clock);
  }

  lemma {:induction false} ThinnedDistinct(table: seq<Session>, full: seq<Session>, ttl: int, clock: int)
    requires Thinned(table, full, ttl, clock) && DistinctIds(full)
    ensures DistinctIds(table)
    decreases |full|
  {
    if full != [] {
      if table != [] && table[0] == full[0] && Thinned(table[1..], full[1..], ttl, clock) {
        ThinnedDistinct(table[1..], full[1..], ttl, clock);
        ThinnedMembers(table[1..], full[1..], ttl, clock);
        forall j | 0 < j < |table| ensures table[j].id != table[0].id {
          assert table[1..][j - 1] in full[1..];
          var n :| 0 <= n < |full[1..]| && full[1..][n] == table[j];
          assert full[n + 1].id != full[0].id;
        }
        forall i, j | 0 <= i < j < |table| ensures table[i].id != table[j].id {
          if i > 0 {
            assert table[1..][i - 1].id != table[1..][j - 1].id;
          }
        }
      } else {
        ThinnedDistinct(table, full[1..], ttl, clock);
      }
    }
  }

  lemma OneEntryPerId(table: seq<Session>, log: seq<Session>, max: int, ttl: int, clock: int, k: nat)
    requires Inv(table, log, max, ttl, clock) && k < |table|
    ensures forall s | s in table && s.id == table[k].id :: s == table[k]
  {
    hide Thinned, InOrder;
    ThinnedMembers(table, Recent(log, max), ttl, clock);
    RecentInOrder(log, max);
    assert table[k] in table;
    forall s | s in table && s.id == table[k].id ensures s == table[k] {
      var i :| 0 <= i < |log| && log[i] == s;
      var j :| 0 <= j < |log| && log[j] == table[k];
      assert i == j;
    }
  }
}
