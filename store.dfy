/** The bot's database state as one object: the `fortunes` table, the
    AUTOINCREMENT counter behind its primary key, and the single `idx` of
    the `current_index` table. Each method is one of the functions of the
    bot that runs SQL against them. */
module Store {
  import opened Options
  import opened PyText
  import opened FortuneTable
  import opened Rotation
  import opened CsvImport

  class FortuneStore {
    var rows: map<nat, Row>
    var nextId: nat
    var idx: nat

    ghost predicate Valid()
      reads this
    {
      WellFormed(Table(rows, nextId))
    }

    /** The freshly created tables: no fortune, and the index row set to 0. */
    constructor ()
      ensures Valid() && rows == map[] && nextId == 1 && idx == 0
    {
      rows, nextId, idx := map[], 1, 0;
    }

    /** `import_fortunes` over the records of the CSV file, header first.
        A file without even a header makes `next(reader)` raise, and the
        function reports failure having inserted nothing. A record whose id
        overflows ends the loop with failure as well. */
    method ImportFortunes(records: seq<seq<string>>, now: nat) returns (ok: bool)
      requires Valid()
      modifies this
      ensures Valid() && idx == old(idx)
      ensures records == [] ==> !ok && rows == old(rows) && nextId == old(nextId)
      ensures records != [] ==>
        ImportResult(ok, Table(rows, nextId)) == ImportRecords(old(Table(rows, nextId)), records[1..], now)
    {
      if records == [] {
        return false;
      }
      ok := ImportBody(records[1..], now);
    }

    /** The loop of `import_fortunes` over the records after the header. */
    method ImportBody(body: seq<seq<string>>, now: nat) returns (ok: bool)
      requires Valid()
      modifies this
      ensures Valid() && idx == old(idx)
      ensures ImportResult(ok, Table(rows, nextId)) == ImportRecords(old(Table(rows, nextId)), body, now)
    {
      ghost var t0 := Table(rows, nextId);
      ghost var ps := ParseRecords(body);
      var i := 0;
      while i < |body|
        invariant 0 <= i <= |body|
        invariant idx == old(idx)
        invariant i <= FirstOverflow(ps)
        invariant WellFormed(Table(rows, nextId))
        invariant Table(rows, nextId) == ImportOffers(t0, ps[..i], now)
      {
        assert ps[i] == ParseRecord(body[i]);
        var overflow := ImportRecord(body[i], now);
        if overflow {
          ImportStopsAt(t0, body, now, i);
          return false;
        }
        FirstOverflowStep(ps, i);
        assert ps[..i + 1][..i] == ps[..i];
        i := i + 1;
      }
      assert ps[..i] == ps;
      ImportCompletes(t0, body, now);
      ok := true;
    }

    /** The body of the import loop for one record: skip a record with
        fewer than two fields, an id `int()` rejects or a blank text, and
        ignore the IntegrityError of a duplicate text. `overflow` reports
        the OverflowError of an id SQLite cannot store, which leaves the
        loop; the table is then unchanged. */
    method ImportRecord(rec: seq<string>, now: nat) returns (overflow: bool)
      requires Valid()
      modifies this
      ensures Valid() && idx == old(idx)
      ensures overflow <==> Overflows(ParseRecord(rec))
      ensures Table(rows, nextId) ==
        if overflow then old(Table(rows, nextId)) else ImportOffer(old(Table(rows, nextId)), ParseRecord(rec), now)
    {
      overflow := false;
      if |rec| >= 2 {
        var globalId := ParseInt(rec[0]);
        if globalId.Some? {
          var forecast := Strip(rec[1]);
          if forecast != [] {
            if !IsInteger(globalId.value) {
              return true;
            }
            var row := ImportedRow(Offer(globalId.value, forecast), now);
            assert RowShape(row) && Bindable(row);
            var inserted := Insert(Table(rows, nextId), row);
            if inserted.Some? {
              rows, nextId := inserted.value.rows, inserted.value.nextId;
            }
          }
        }
      }
    }

    /** `add_fortune`: the new row's key; `None` (the source's `False`)
        when the text is already in the table; OverflowError when the row
        holds an integer SQLite cannot store. Only a returned key changes
        anything. */
    method AddFortune(forecast: string, originGuild: Option<int>, now: nat) returns (res: Raised<Option<nat>>)
      requires Valid()
      modifies this
      ensures Valid() && idx == old(idx)
      ensures res.OverflowError? <==> !Bindable(NewRow(old(Table(rows, nextId)), forecast, originGuild, now))
      ensures res == Returned(None) <==>
        Bindable(NewRow(old(Table(rows, nextId)), forecast, originGuild, now)) && HasForecast(old(rows), forecast)
      ensures !(res.Returned? && res.value.Some?) ==> rows == old(rows) && nextId == old(nextId)
      ensures res.Returned? && res.value.Some? ==>
        && res.value.value == old(nextId) && nextId == old(nextId) + 1
        && (forall k :: k in old(rows) ==> k < res.value.value)
        && rows == old(rows)[res.value.value := NewRow(old(Table(rows, nextId)), forecast, originGuild, now)]
    {
      var t := Table(rows, nextId);
      var row := NewRow(t, forecast, originGuild, now);
      NewRowProperties(t, forecast, originGuild, now);
      if !Bindable(row) {
        return OverflowError;
      }
      var inserted := Insert(t, row);
      if inserted.None? {
        return Returned(None);
      }
      res := Returned(Some(nextId));
      rows, nextId := inserted.value.rows, inserted.value.nextId;
      assert rows == t.rows[t.nextId := row];
    }

    /** `remove_fortune`: deletes the row when it is a guild row; an id
        outside the INTEGER range raises OverflowError. */
    method RemoveFortune(id: int) returns (res: Raised<bool>)
      requires Valid()
      modifies this
      ensures Valid() && nextId == old(nextId) && idx == old(idx)
      ensures res.OverflowError? <==> !IsInteger(id)
      ensures res.Returned? ==> (res.value <==> IsGuildRow(old(rows), id))
      ensures rows == if res == Returned(true) then old(rows) - {id as nat} else old(rows)
    {
      if !IsInteger(id) {
        return OverflowError;
      }
      var removed := IsGuildRow(rows, id);
      if removed {
        rows := rows - {id as nat};
      }
      res := Returned(removed);
    }

    /** `reject_fortune`: the same DELETE as `remove_fortune`. */
    method RejectFortune(id: int) returns (res: Raised<bool>)
      requires Valid()
      modifies this
      ensures Valid() && nextId == old(nextId) && idx == old(idx)
      ensures res.OverflowError? <==> !IsInteger(id)
      ensures res.Returned? ==> (res.value <==> IsGuildRow(old(rows), id))
      ensures rows == if res == Returned(true) then old(rows) - {id as nat} else old(rows)
    {
      res := RemoveFortune(id);
    }

    /** `approve_fortune`: sets `approved` on a guild row; the UPDATE matches
        a row that is approved already, so that counts as success too. An
        id outside the INTEGER range raises OverflowError. */
    method ApproveFortune(id: int) returns (res: Raised<bool>)
      requires Valid()
      modifies this
      ensures Valid() && nextId == old(nextId) && idx == old(idx)
      ensures res.OverflowError? <==> !IsInteger(id)
      ensures res.Returned? ==> (res.value <==> IsGuildRow(old(rows), id))
      ensures rows ==
        if res == Returned(true) then old(rows)[id as nat := old(rows)[id as nat].(approved := true)] else old(rows)
    {
      if !IsInteger(id) {
        return OverflowError;
      }
      var approved := IsGuildRow(rows, id);
      if approved {
        var k: nat := id as nat;
        rows := rows[k := rows[k].(approved := true)];
      }
      res := Returned(approved);
    }

    /** `reset_fortunes`: every row unused, the index back to 0. */
    method ResetFortunes()
      requires Valid()
      modifies this
      ensures Valid() && nextId == old(nextId)
      ensures rows == ResetRows(old(rows)) && idx == 0
    {
      ResetRowsProperties(rows);
      rows, idx := ResetRows(rows), 0;
    }

    /** One pass of `get_next_fortune`: the guild SELECT, then the global
        SELECT at the current index; `None` when both are empty. */
    method DeliverOnce() returns (f: Option<Fortune>)
      requires Valid()
      modifies this
      ensures Valid() && nextId == old(nextId)
      ensures match Deliver(old(rows), old(idx), nextId)
        case Some(o) => f == o.fortune && rows == o.rows && idx == o.idx
        case None => f.None? && rows == old(rows) && idx == old(idx)
    {
      var currentIdx := idx;
      var guildFortune := OldestGuild(rows, nextId);
      if guildFortune.Some? {
        var k := guildFortune.value;
        f := Some(FortuneOf(rows, k));
        rows := MarkUsed(rows, k);
        return;
      }
      var queue := GlobalQueue(rows, nextId);
      if currentIdx < |queue| {
        var k := queue[currentIdx];
        assert k in queue;
        f := Some(FortuneOf(rows, k));
        rows := MarkUsed(rows, k);
        idx := currentIdx + 1;
        return;
      }
      f := None;
    }

    /** `get_next_fortune`, with the recursion after the reset run once:
        `None` is the case in which the source recurses without end. */
    method GetNextFortune() returns (f: Option<Fortune>)
      requires Valid()
      modifies this
      ensures Valid() && nextId == old(nextId)
      ensures Outcome(f, rows, idx) == NextFortune(old(rows), old(idx), nextId)
      ensures f.Some? ==> f.value.id in rows && rows[f.value.id].used && old(rows)[f.value.id].approved
    {
      NeverUnapproved(rows, idx, nextId);
      NextFortuneWellFormed(Table(rows, nextId), idx);
      f := DeliverOnce();
      if f.None? {
        ResetFortunes();
        f := DeliverOnce();
      }
    }
  }

  /** A global row appended to a table of self-numbered global rows 1..n-1
      is numbered n. */
  lemma NextGlobalAfterSelfNumbered(rows: map<nat, Row>, n: nat)
    requires 1 <= n && forall k: nat :: k in rows <==> 1 <= k < n
    requires forall k :: k in rows ==> rows[k].globalId == Some(k as int)
    ensures NextIdIn(rows, AllGlobal, n) == n
  {
    NextIdInIsFresh(rows, AllGlobal, n);
    if n > 1 {
      assert IdIn(rows, AllGlobal, n - 1) == Some(n - 1);
    }
  }

  /** The row `add_fortune` builds for the next global text of such a
      table, at time 0, is the row the import would have stored. */
  lemma AddSelfNumbered(rows: map<nat, Row>, n: nat, text: string)
    requires 1 <= n && forall k: nat :: k in rows <==> 1 <= k < n
    requires forall k :: k in rows ==> rows[k].globalId == Some(k as int)
    ensures NewRow(Table(rows, n), text, None, 0) == ImportedRow(Offer(n, text), 0)
  {
    NextGlobalAfterSelfNumbered(rows, n);
  }

  /** `add_fortune` with a new text and no guild, on a table of
      self-numbered global rows 1..n-1 added at time 0, appends row n. */
  method AddNextGlobal(store: FortuneStore, text: string)
    requires store.Valid() && 1 <= store.nextId <= MaxInteger
    requires forall k: nat :: k in store.rows <==> 1 <= k < store.nextId
    requires forall k :: k in store.rows ==> store.rows[k].globalId == Some(k as int)
    requires !HasForecast(store.rows, text)
    modifies store
    ensures store.Valid() && store.idx == old(store.idx) && store.nextId == old(store.nextId) + 1
    ensures store.rows == old(store.rows)[old(store.nextId) := ImportedRow(Offer(old(store.nextId), text), 0)]
  {
    AddSelfNumbered(store.rows, store.nextId, text);
    var id := store.AddFortune(text, None, 0);
  }

  /** Four global fortunes "a".."d" added one after the other through
      `add_fortune` give the table of rows g1..g4. */
  method AddFourGlobals() returns (store: FortuneStore)
    ensures fresh(store) && store.Valid()
    ensures store.rows == FourGlobals() && store.nextId == 5 && store.idx == 0
  {
    store := new FortuneStore();
    AddNextGlobal(store, "a");
    AddNextGlobal(store, "b");
    AddNextGlobal(store, "c");
    AddNextGlobal(store, "d");
  }

  /** The skipping rotation driven through the object: on those four rows,
      three `get_next_fortune` calls return #1, #3 and #1 again. */
  method FourGlobalsRotation() returns (first: Option<Fortune>, second: Option<Fortune>, third: Option<Fortune>)
    ensures first == Some(Fortune(1, "a", Global, Some(1), None))
    ensures second == Some(Fortune(3, "c", Global, Some(3), None))
    ensures third == first
  {
    var store := AddFourGlobals();
    OffsetSkipsRows();
    first := store.GetNextFortune();
    second := store.GetNextFortune();
    third := store.GetNextFortune();
  }

  lemma DropSecond(r1: Row, r2: Row)
    ensures map[1 := r1, 2 := r2] - {2} == map[1 := r1]
  {
  }

  /** Guild 7 submits "x" and "y" through `add_fortune`, numbered #1 and
      #2; `remove_fortune` deletes the second, and the next submission "z"
      is numbered #2 again. */
  method GuildIdReusedThroughStore() returns (first: Option<int>, second: Option<int>, third: Option<int>)
    ensures first == Some(1) && second == Some(2) && third == Some(2)
  {
    GuildIdReusedAfterRemoval();
    var r1 := NewRow(Table(map[], 1), "x", Some(7), 0);
    var r2 := NewRow(Table(map[1 := r1], 2), "y", Some(7), 0);
    var store := new FortuneStore();
    var k1 := store.AddFortune("x", Some(7), 0);
    assert store.rows == map[1 := r1];
    first := store.rows[1].guildId;
    var k2 := store.AddFortune("y", Some(7), 0);
    assert store.rows == map[1 := r1, 2 := r2];
    second := store.rows[2].guildId;
    assert IsGuildRow(store.rows, 2);
    var res := store.RemoveFortune(2);
    DropSecond(r1, r2);
    var k3 := store.AddFortune("z", Some(7), 0);
    third := store.rows[3].guildId;
  }
}
