/** `get_next_fortune` as a function of the table and the cursor `idx`:
    the two SELECTs it runs, the row it marks used, the cursor update, and
    the reset-and-retry when both SELECTs come back empty. */
module Rotation {
  import opened Options
  import opened FortuneTable
  import CsvImport

  /** The tuple `(id, forecast, source, global_id, guild_id)` that
      `get_next_fortune` returns. */
  datatype Fortune = Fortune(id: nat, forecast: string, source: Source, globalId: Option<int>, guildId: Option<int>)

  function FortuneOf(rows: map<nat, Row>, k: nat): Fortune
    requires k in rows
  {
    Fortune(k, rows[k].forecast, rows[k].source, rows[k].globalId, rows[k].guildId)
  }

  /** `WHERE used=0 AND approved=1 AND source='guild'` */
  predicate IsGuildCandidate(rows: map<nat, Row>, k: nat)
  {
    k in rows && rows[k].source == Guild && rows[k].approved && !rows[k].used
  }

  /** `WHERE used=0 AND source='global'` (the approved flag is not tested) */
  predicate IsGlobalCandidate(rows: map<nat, Row>, k: nat)
  {
    k in rows && rows[k].source == Global && !rows[k].used
  }

  /** `ORDER BY added_time ASC`, equal timestamps ordered by primary key. */
  predicate AddedNoLater(rows: map<nat, Row>, a: nat, b: nat)
  {
    a in rows && b in rows &&
    (rows[a].addedTime < rows[b].addedTime || (rows[a].addedTime == rows[b].addedTime && a <= b))
  }

  /** The first row of the guild SELECT among the keys below `n`
      (`LIMIT 1`), or `None` when it returns nothing. */
  function OldestGuild(rows: map<nat, Row>, n: nat): (r: Option<nat>)
    ensures r.Some? ==> r.value < n && IsGuildCandidate(rows, r.value)
    ensures r.Some? ==> forall j: nat :: j < n && IsGuildCandidate(rows, j) ==> AddedNoLater(rows, r.value, j)
    ensures r.None? ==> forall j: nat :: j < n ==> !IsGuildCandidate(rows, j)
  {
    if n == 0 then None
    else
      var best := OldestGuild(rows, n - 1);
      if !IsGuildCandidate(rows, n - 1) then best
      else if best.Some? && rows[best.value].addedTime <= rows[n - 1].addedTime then best
      else Some(n - 1)
  }

  /** SQLite's ascending order on a nullable integer: NULL first. */
  predicate NullsFirstLess(a: Option<int>, b: Option<int>)
  {
    (a.None? && b.Some?) || (a.Some? && b.Some? && a.value < b.value)
  }

  /** `ORDER BY global_id ASC`, equal global ids ordered by primary key. */
  predicate GlobalBefore(rows: map<nat, Row>, a: nat, b: nat)
  {
    a in rows && b in rows &&
    (NullsFirstLess(rows[a].globalId, rows[b].globalId) || (rows[a].globalId == rows[b].globalId && a < b))
  }

  predicate SortedByGlobalId(rows: map<nat, Row>, q: seq<nat>)
  {
    forall i, j :: 0 <= i < j < |q| ==> GlobalBefore(rows, q[i], q[j])
  }

  /** Global-id order is total on distinct rows and transitive. */
  lemma GlobalBeforeOrder(rows: map<nat, Row>)
    ensures forall a, b :: a in rows && b in rows && a != b ==> GlobalBefore(rows, a, b) || GlobalBefore(rows, b, a)
    ensures forall a, b, c :: GlobalBefore(rows, a, b) && GlobalBefore(rows, b, c) ==> GlobalBefore(rows, a, c)
  {
  }

  lemma SortedCons(rows: map<nat, Row>, x: nat, s: seq<nat>)
    requires SortedByGlobalId(rows, s)
    requires forall y :: y in s ==> GlobalBefore(rows, x, y)
    ensures SortedByGlobalId(rows, [x] + s)
  {
    var r := [x] + s;
    forall i, j | 0 <= i < j < |r|
      ensures GlobalBefore(rows, r[i], r[j])
    {
      if i == 0 {
        assert r[j] == s[j - 1];
        assert r[j] in s;
      } else {
        assert r[i] == s[i - 1] && r[j] == s[j - 1];
      }
    }
  }

  function InsertByGlobalId(rows: map<nat, Row>, q: seq<nat>, k: nat): (r: seq<nat>)
    requires k in rows && k !in q
    requires forall x :: x in q ==> x in rows
    requires SortedByGlobalId(rows, q)
    ensures SortedByGlobalId(rows, r)
    ensures forall x :: x in r <==> x in q || x == k
    ensures |r| == |q| + 1
  {
    GlobalBeforeOrder(rows);
    if q == [] then [k]
    else if GlobalBefore(rows, k, q[0]) then
      assert forall y :: y in q ==> GlobalBefore(rows, k, y) by {
        forall y | y in q ensures GlobalBefore(rows, k, y) {
          var i :| 0 <= i < |q| && q[i] == y;
          if i > 0 { assert GlobalBefore(rows, q[0], q[i]); }
        }
      }
      SortedCons(rows, k, q);
      [k] + q
    else
      var rest := InsertByGlobalId(rows, q[1..], k);
      assert q[0] in rows && q[0] != k;
      assert forall y :: y in rest ==> GlobalBefore(rows, q[0], y) by {
        forall y | y in rest ensures GlobalBefore(rows, q[0], y) {
          if y != k {
            var i :| 1 <= i < |q| && q[i] == y;
          }
        }
      }
      SortedCons(rows, q[0], rest);
      [q[0]] + rest
  }

  /** The result of the global SELECT without `LIMIT` and `OFFSET`: the
      unused global rows among the keys below `n`, in global-id order. */
  function GlobalQueue(rows: map<nat, Row>, n: nat): (q: seq<nat>)
    ensures SortedByGlobalId(rows, q)
    ensures forall k: nat :: k in q <==> k < n && IsGlobalCandidate(rows, k)
  {
    if n == 0 then []
    else
      var q := GlobalQueue(rows, n - 1);
      if IsGlobalCandidate(rows, n - 1) then InsertByGlobalId(rows, q, n - 1) else q
  }

  /** A sequence ordered by global id is fixed by the keys it holds, so the
      queue above is the only ordering the SELECT can produce. */
  lemma {:induction false} SortedUnique(rows: map<nat, Row>, a: seq<nat>, b: seq<nat>)
    requires SortedByGlobalId(rows, a) && SortedByGlobalId(rows, b)
    requires forall x :: x in a <==> x in b
    ensures a == b
  {
    assert b == [] || b[0] in b;
    if a == [] {
    } else {
      assert a[0] in b;
      assert b[0] in a;
      assert a[0] == b[0];
      forall x
        ensures x in a[1..] <==> x in b[1..]
      {
        if x in a[1..] {
          var i :| 1 <= i < |a| && a[i] == x;
          assert GlobalBefore(rows, a[0], a[i]);
          assert x in b;
        }
        if x in b[1..] {
          var j :| 1 <= j < |b| && b[j] == x;
          assert GlobalBefore(rows, b[0], b[j]);
          assert x in a;
        }
      }
      SortedUnique(rows, a[1..], b[1..]);
      assert a == [a[0]] + a[1..] && b == [b[0]] + b[1..];
    }
  }

  /** The row that one pass of `get_next_fortune` takes. */
  datatype Pick = FromGuild(key: nat) | FromGlobal(key: nat) | Exhausted

  /** The guild SELECT first; if it is empty, the global SELECT with
      `LIMIT 1 OFFSET idx`. */
  function Select(rows: map<nat, Row>, idx: nat, n: nat): (p: Pick)
    ensures p.FromGuild? <==> exists j: nat :: j < n && IsGuildCandidate(rows, j)
    ensures p.FromGuild? ==> IsGuildCandidate(rows, p.key)
    ensures p.FromGuild? ==>
      forall j: nat :: j < n && IsGuildCandidate(rows, j) ==> AddedNoLater(rows, p.key, j)
    ensures p.FromGlobal? ==>
      idx < |GlobalQueue(rows, n)| && p.key == GlobalQueue(rows, n)[idx] && IsGlobalCandidate(rows, p.key)
    ensures p.Exhausted? <==>
      (forall j: nat :: j < n ==> !IsGuildCandidate(rows, j)) && idx >= |GlobalQueue(rows, n)|
  {
    match OldestGuild(rows, n)
    case Some(k) => FromGuild(k)
    case None =>
      var q := GlobalQueue(rows, n);
      if idx < |q| then FromGlobal(q[idx]) else Exhausted
  }

  /** `UPDATE fortunes SET used=1 WHERE id=?` */
  function MarkUsed(rows: map<nat, Row>, k: nat): map<nat, Row>
    requires k in rows
  {
    rows[k := rows[k].(used := true)]
  }

  /** `UPDATE fortunes SET used=0` */
  function ResetRows(rows: map<nat, Row>): map<nat, Row>
  {
    map k | k in rows :: rows[k].(used := false)
  }

  /** What a call leaves behind: the fortune returned, the table, the cursor. */
  datatype Outcome = Outcome(fortune: Option<Fortune>, rows: map<nat, Row>, idx: nat)

  /** One pass: a guild row is taken without moving the cursor, a global row
      advances it by one; `None` when neither SELECT returns a row. */
  function Deliver(rows: map<nat, Row>, idx: nat, n: nat): Option<Outcome>
  {
    match Select(rows, idx, n)
    case FromGuild(k) => Some(Outcome(Some(FortuneOf(rows, k)), MarkUsed(rows, k), idx))
    case FromGlobal(k) => Some(Outcome(Some(FortuneOf(rows, k)), MarkUsed(rows, k), idx + 1))
    case Exhausted => None
  }

  /** `get_next_fortune` with its recursion cut after one reset: where the
      retry finds nothing either, the fortune is `None`. */
  function NextFortune(rows: map<nat, Row>, idx: nat, n: nat): Outcome
  {
    match Deliver(rows, idx, n)
    case Some(o) => o
    case None =>
      match Deliver(ResetRows(rows), 0, n)
      case Some(o) => o
      case None => Outcome(None, ResetRows(rows), 0)
  }

  /** The reset clears every `used` flag, keeps every row and every other
      column, and doing it twice is doing it once. */
  lemma ResetRowsProperties(rows: map<nat, Row>)
    ensures ResetRows(rows).Keys == rows.Keys
    ensures forall k :: k in rows ==> !ResetRows(rows)[k].used && ResetRows(rows)[k].(used := rows[k].used) == rows[k]
    ensures ResetRows(ResetRows(rows)) == ResetRows(rows)
  {
  }

  /** An unused approved guild row always wins: the one returned has the
      earliest `added_time` of them, it alone is marked used, and the cursor
      stays where it was. */
  lemma GuildSubmissionFirst(rows: map<nat, Row>, idx: nat, n: nat, j: nat)
    requires j < n && IsGuildCandidate(rows, j)
    ensures var o := NextFortune(rows, idx, n);
      && o.fortune.Some?
      && IsGuildCandidate(rows, o.fortune.value.id)
      && o.fortune.value == FortuneOf(rows, o.fortune.value.id)
      && (forall i: nat :: i < n && IsGuildCandidate(rows, i) ==> AddedNoLater(rows, o.fortune.value.id, i))
      && o.rows == MarkUsed(rows, o.fortune.value.id)
      && o.idx == idx
  {
  }

  /** With no guild row to deliver, the fortune is the one at position `idx`
      of the unused global rows in global-id order; it is marked used and the
      cursor moves on by one. */
  lemma GlobalAtCursor(rows: map<nat, Row>, idx: nat, n: nat)
    requires forall j: nat :: j < n ==> !IsGuildCandidate(rows, j)
    requires idx < |GlobalQueue(rows, n)|
    ensures var k := GlobalQueue(rows, n)[idx];
      && IsGlobalCandidate(rows, k)
      && NextFortune(rows, idx, n) == Outcome(Some(FortuneOf(rows, k)), MarkUsed(rows, k), idx + 1)
  {
    assert OldestGuild(rows, n).None?;
  }

  /** No SELECT returns a row: the table is reset and the choice is made
      again from cursor 0. The retry finds a fortune exactly when some
      guild row is approved or some global row exists. */
  lemma ResetAndRetry(rows: map<nat, Row>, idx: nat, n: nat)
    requires KeysBelow(rows, n)
    requires forall j: nat :: j < n ==> !IsGuildCandidate(rows, j)
    requires idx >= |GlobalQueue(rows, n)|
    ensures var o := NextFortune(rows, idx, n);
      && (o.fortune.Some? <==>
            exists k :: k in rows && (rows[k].source == Global || rows[k].approved))
      && (o.fortune.Some? ==> Deliver(ResetRows(rows), 0, n) == Some(o))
      && (o.fortune.None? ==> o.rows == ResetRows(rows) && o.idx == 0)
  {
    var r := ResetRows(rows);
    assert OldestGuild(rows, n).None?;
    assert Deliver(rows, idx, n).None?;
    if exists k :: k in rows && (rows[k].source == Global || rows[k].approved) {
      var k :| k in rows && (rows[k].source == Global || rows[k].approved);
      if rows[k].source == Global {
        assert IsGlobalCandidate(r, k);
        assert k in GlobalQueue(r, n);
      } else {
        assert IsGuildCandidate(r, k);
      }
      assert Deliver(r, 0, n).Some?;
    } else {
      assert OldestGuild(r, n).None?;
    }
  }

  /** Where no fortune comes back, the table is already reset and the cursor
      is 0, so another reset and another pass change nothing and find
      nothing: the source's `return get_next_fortune()` never ends there. */
  lemma EmptyResultIsAFixedPoint(rows: map<nat, Row>, idx: nat, n: nat)
    requires NextFortune(rows, idx, n).fortune.None?
    ensures var o := NextFortune(rows, idx, n);
      && o.idx == 0
      && ResetRows(o.rows) == o.rows
      && Deliver(o.rows, 0, n).None?
  {
    ResetRowsProperties(rows);
  }

  /** What one pass returns is the row it marks used; the row was unused
      before, a guild row among them was approved, and no other row changes. */
  lemma DeliveredRow(rows: map<nat, Row>, idx: nat, n: nat)
    requires Deliver(rows, idx, n).Some?
    ensures var o := Deliver(rows, idx, n).value;
      && o.fortune.Some?
      && var k := o.fortune.value.id;
      && k in rows && !rows[k].used && (rows[k].source == Guild ==> rows[k].approved)
      && o.fortune.value == FortuneOf(rows, k)
      && o.rows == MarkUsed(rows, k)
  {
  }

  /** Until a reset, two deliveries in a row never hand out the same row. */
  lemma NoDoubleDelivery(rows: map<nat, Row>, idx: nat, n: nat)
    requires Deliver(rows, idx, n).Some?
    requires var o := Deliver(rows, idx, n).value; Deliver(o.rows, o.idx, n).Some?
    ensures var o1 := Deliver(rows, idx, n).value;
      var o2 := Deliver(o1.rows, o1.idx, n).value;
      o1.fortune.value.id != o2.fortune.value.id
  {
    var o1 := Deliver(rows, idx, n).value;
    DeliveredRow(rows, idx, n);
    DeliveredRow(o1.rows, o1.idx, n);
  }

  /** Every call, with or without the reset, keeps every key and never
      returns an unapproved guild row; the row it returns is left marked
      used. */
  lemma NeverUnapproved(rows: map<nat, Row>, idx: nat, n: nat)
    ensures var o := NextFortune(rows, idx, n);
      && o.rows.Keys == rows.Keys
      && (o.fortune.Some? ==>
            var k := o.fortune.value.id;
            && k in rows && (rows[k].source == Guild ==> rows[k].approved)
            && o.rows[k].used)
  {
    if Deliver(rows, idx, n).None? {
      ResetRowsProperties(rows);
    }
  }

  lemma MarkUsedWellFormed(t: Table, k: nat)
    requires WellFormed(t) && k in t.rows
    ensures WellFormed(Table(MarkUsed(t.rows, k), t.nextId))
  {
  }

  lemma ResetRowsWellFormed(t: Table)
    requires WellFormed(t)
    ensures WellFormed(Table(ResetRows(t.rows), t.nextId))
  {
    ResetRowsProperties(t.rows);
  }

  lemma DeliverWellFormed(t: Table, idx: nat)
    requires WellFormed(t)
    ensures Deliver(t.rows, idx, t.nextId).Some? ==>
      WellFormed(Table(Deliver(t.rows, idx, t.nextId).value.rows, t.nextId))
  {
    match Select(t.rows, idx, t.nextId)
    case FromGuild(k) => MarkUsedWellFormed(t, k);
    case FromGlobal(k) => MarkUsedWellFormed(t, k);
    case Exhausted =>
  }

  /** Rotation touches only `used`, so it keeps the table well-formed. */
  lemma NextFortuneWellFormed(t: Table, idx: nat)
    requires WellFormed(t)
    ensures WellFormed(Table(NextFortune(t.rows, idx, t.nextId).rows, t.nextId))
    ensures var o := NextFortune(t.rows, idx, t.nextId);
      o.fortune.Some? ==> t.rows[o.fortune.value.id].approved
  {
    NeverUnapproved(t.rows, idx, t.nextId);
    DeliverWellFormed(t, idx);
    ResetRowsWellFormed(t);
    DeliverWellFormed(Table(ResetRows(t.rows), t.nextId), 0);
  }

  /** The queue is fixed by its members and its order. */
  lemma QueueIs(rows: map<nat, Row>, n: nat, s: seq<nat>)
    requires SortedByGlobalId(rows, s)
    requires forall k: nat :: k in s <==> k < n && IsGlobalCandidate(rows, k)
    ensures GlobalQueue(rows, n) == s
  {
    SortedUnique(rows, GlobalQueue(rows, n), s);
  }

  /** Four global rows g1..g4 as a fresh import leaves them. */
  function FourGlobals(): map<nat, Row>
  {
    map[1 := CsvImport.ImportedRow(CsvImport.Offer(1, "a"), 0),
        2 := CsvImport.ImportedRow(CsvImport.Offer(2, "b"), 0),
        3 := CsvImport.ImportedRow(CsvImport.Offer(3, "c"), 0),
        4 := CsvImport.ImportedRow(CsvImport.Offer(4, "d"), 0)]
  }

  /** A table of global rows has no guild row to deliver. */
  lemma NoGuildInFour(rows: map<nat, Row>)
    requires rows.Keys == {1, 2, 3, 4}
    requires forall k :: k in rows ==> rows[k].source == Global
    ensures OldestGuild(rows, 5).None?
  {
  }

  /** Rows numbered by their own key are in global-id order when the keys
      increase. */
  lemma SelfNumberedSorted(rows: map<nat, Row>, s: seq<nat>)
    requires forall i :: 0 <= i < |s| ==> s[i] in rows && rows[s[i]].globalId == Some(s[i] as int)
    requires forall i, j :: 0 <= i < j < |s| ==> s[i] < s[j]
    ensures SortedByGlobalId(rows, s)
  {
  }

  lemma FirstCall()
    ensures NextFortune(FourGlobals(), 0, 5)
      == Outcome(Some(FortuneOf(FourGlobals(), 1)), MarkUsed(FourGlobals(), 1), 1)
  {
    var r0 := FourGlobals();
    NoGuildInFour(r0);
    SelfNumberedSorted(r0, [1, 2, 3, 4]);
    assert forall k: nat :: k in [1, 2, 3, 4] <==> k < 5 && IsGlobalCandidate(r0, k);
    QueueIs(r0, 5, [1, 2, 3, 4]);
  }

  lemma SecondCall()
    ensures var r1 := MarkUsed(FourGlobals(), 1);
      NextFortune(r1, 1, 5) == Outcome(Some(FortuneOf(r1, 3)), MarkUsed(r1, 3), 2)
  {
    var r1 := MarkUsed(FourGlobals(), 1);
    NoGuildInFour(r1);
    SelfNumberedSorted(r1, [2, 3, 4]);
    assert forall k: nat :: k in [2, 3, 4] <==> k < 5 && IsGlobalCandidate(r1, k);
    QueueIs(r1, 5, [2, 3, 4]);
  }

  lemma ThirdCall()
    ensures var r2 := MarkUsed(MarkUsed(FourGlobals(), 1), 3);
      NextFortune(r2, 2, 5) == NextFortune(FourGlobals(), 0, 5)
  {
    var r2 := MarkUsed(MarkUsed(FourGlobals(), 1), 3);
    NoGuildInFour(r2);
    SelfNumberedSorted(r2, [2, 4]);
    QueueIs(r2, 5, [2, 4]);
    assert Deliver(r2, 2, 5).None?;
    assert ResetRows(r2) == FourGlobals();
  }

  /** Four fresh global rows g1..g4 and no guild row: the OFFSET is applied
      to the rows that are still unused, so the calls yield g1, then g3, then
      (after a reset) g1 again, and the third call leaves the same state as
      the first. The rotation alternates between g1 and g3 from then on and
      never delivers g2 or g4. */
  lemma OffsetSkipsRows()
    ensures var o1 := NextFortune(FourGlobals(), 0, 5);
      var o2 := NextFortune(o1.rows, o1.idx, 5);
      var o3 := NextFortune(o2.rows, o2.idx, 5);
      && o1.fortune == Some(Fortune(1, "a", Global, Some(1), None)) && o1.idx == 1
      && o2.fortune == Some(Fortune(3, "c", Global, Some(3), None)) && o2.idx == 2
      && o3.fortune == Some(Fortune(1, "a", Global, Some(1), None)) && o3.idx == 1
      && o3 == o1
  {
    FirstCall();
    SecondCall();
    ThirdCall();
  }
}
