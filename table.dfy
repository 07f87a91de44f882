/** The `fortunes` table: its rows, the constraints that hold of every
    state of it, and the row-level operations the bot's functions share
    (the UNIQUE check on insertion, the MAX + 1 display-id allocation). */
module FortuneTable {
  import opened Options

  /** The `source` column: 'global' or 'guild'. */
  datatype Source = Global | Guild

  /** One row. The primary key `id` is the key of the map the row is
      stored under; NULL columns are `None`; `used` and `approved` are the
      0/1 columns; `addedTime` is the CURRENT_TIMESTAMP of the insertion,
      in seconds. */
  datatype Row = Row(
    globalId: Option<int>,
    guildId: Option<int>,
    forecast: string,
    used: bool,
    source: Source,
    approved: bool,
    originGuild: Option<int>,
    addedTime: nat)

  /** The table together with the AUTOINCREMENT counter: `nextId` is the
      key the next successful INSERT receives. */
  datatype Table = Table(rows: map<nat, Row>, nextId: nat)

  /** The shapes of row that the bot's INSERT statements produce: a global
      row has a global id, no guild id, no origin guild and is approved; a
      guild row has a guild id and an origin guild and no global id. */
  predicate RowShape(r: Row)
  {
    match r.source
    case Global => r.globalId.Some? && r.guildId.None? && r.originGuild.None? && r.approved
    case Guild => r.globalId.None? && r.guildId.Some? && r.originGuild.Some?
  }

  predicate KeysBelow(rows: map<nat, Row>, n: nat)
  {
    forall k :: k in rows ==> k < n
  }

  /** SQLite stores an INTEGER in a signed 64-bit word, and Python's sqlite3
      refuses to bind an `int` outside that range: the statement raises
      OverflowError before it runs. */
  const MinInteger: int := -0x8000_0000_0000_0000
  const MaxInteger: int := 0x7FFF_FFFF_FFFF_FFFF

  predicate IsInteger(x: int)
  {
    MinInteger <= x <= MaxInteger
  }

  predicate IsIntegerOrNull(x: Option<int>)
  {
    x.None? || IsInteger(x.value)
  }

  /** Every integer column of the row can be bound to a statement. */
  predicate Bindable(r: Row)
  {
    IsIntegerOrNull(r.globalId) && IsIntegerOrNull(r.guildId) && IsIntegerOrNull(r.originGuild)
  }

  /** How a call of the bot's functions ends: it returns a value, or the
      statement it runs raises OverflowError, which it does not catch. */
  datatype Raised<T> = Returned(value: T) | OverflowError

  /** The invariant of the table: keys are issued from 1 and lie below the
      counter, `forecast` is UNIQUE, every row has one of the shapes above,
      and every integer it stores fits an SQLite INTEGER. */
  predicate WellFormed(t: Table)
  {
    && 1 <= t.nextId
    && (forall k :: k in t.rows ==> 1 <= k < t.nextId)
    && (forall a, b :: a in t.rows && b in t.rows && a != b ==> t.rows[a].forecast != t.rows[b].forecast)
    && (forall k :: k in t.rows ==> RowShape(t.rows[k]) && Bindable(t.rows[k]))
  }

  /** Some row already holds this text. */
  predicate HasForecast(rows: map<nat, Row>, text: string)
  {
    exists k :: k in rows && rows[k].forecast == text
  }

  /** An INSERT into the table: it fails with IntegrityError (here `None`)
      when the text is already present, and otherwise stores the row under
      the next AUTOINCREMENT key. A failed INSERT does not consume a key. */
  function Insert(t: Table, r: Row): (res: Option<Table>)
    requires KeysBelow(t.rows, t.nextId)
    ensures res.None? <==> HasForecast(t.rows, r.forecast)
    ensures res.Some? ==>
      && res.value.nextId == t.nextId + 1
      && res.value.rows.Keys == t.rows.Keys + {t.nextId}
      && res.value.rows[t.nextId] == r
      && (forall k :: k in t.rows ==> res.value.rows[k] == t.rows[k])
      && KeysBelow(res.value.rows, res.value.nextId)
    ensures WellFormed(t) && RowShape(r) && Bindable(r) && res.Some? ==> WellFormed(res.value)
  {
    if HasForecast(t.rows, r.forecast) then None
    else Some(Table(t.rows[t.nextId := r], t.nextId + 1))
  }

  /** `WHERE id=? AND source="guild"` matches a row. (SQLite reads the
      double-quoted "guild" as a string, there being no such column.) */
  predicate IsGuildRow(rows: map<nat, Row>, id: int)
  {
    0 <= id && id as nat in rows && rows[id as nat].source == Guild
  }

  /** The partitions display ids are numbered in: all rows with a global id,
      or the rows submitted from one guild. */
  datatype Scope = AllGlobal | InGuild(guild: int)

  /** The id of row `k` in `scope`: its `global_id`, or its `guild_id` when
      it was submitted from that guild; `None` for a missing row or a NULL. */
  function IdIn(rows: map<nat, Row>, scope: Scope, k: nat): Option<int>
  {
    if k !in rows then None
    else match scope
      case AllGlobal => rows[k].globalId
      case InGuild(g) => if rows[k].originGuild == Some(g) then rows[k].guildId else None
  }

  /** SQL `MAX` over the non-NULL ids of `scope` among the keys below `n`;
      NULL (here `None`) when there is none. */
  function MaxId(rows: map<nat, Row>, scope: Scope, n: nat): (m: Option<int>)
    ensures m.None? <==> forall k: nat :: k < n ==> IdIn(rows, scope, k).None?
    ensures m.Some? ==> exists k: nat :: k < n && IdIn(rows, scope, k) == m
    ensures m.Some? ==> forall k: nat :: k < n && IdIn(rows, scope, k).Some? ==> IdIn(rows, scope, k).value <= m.value
  {
    if n == 0 then None
    else
      var prev := MaxId(rows, scope, n - 1);
      match IdIn(rows, scope, n - 1)
      case None => prev
      case Some(v) =>
        if prev.Some? && v <= prev.value then prev else Some(v)
  }

  /** `(cursor.fetchone()[0] or 0) + 1`: one more than the maximum, or 1 for
      an empty partition. (`m or 0` is `m` when `m` is 0 as well.) */
  function NextIdIn(rows: map<nat, Row>, scope: Scope, n: nat): int
  {
    match MaxId(rows, scope, n)
    case None => 1
    case Some(m) => m + 1
  }

  /** The id an allocation hands out is above every id already in the
      partition, and it is 1 or directly follows one of them. */
  lemma NextIdInIsFresh(rows: map<nat, Row>, scope: Scope, n: nat)
    ensures var d := NextIdIn(rows, scope, n);
      forall k: nat :: k < n && IdIn(rows, scope, k).Some? ==> IdIn(rows, scope, k).value < d
    ensures var d := NextIdIn(rows, scope, n);
      d == 1 || exists k: nat :: k < n && IdIn(rows, scope, k) == Some(d - 1)
    ensures (forall k: nat :: k < n ==> IdIn(rows, scope, k).None?) ==> NextIdIn(rows, scope, n) == 1
  {
  }

  /** The row `add_fortune` inserts: with no guild, a global row numbered
      after every global id and approved at once; from guild `g`, an
      unapproved guild row numbered after that guild's submissions. */
  function NewRow(t: Table, forecast: string, originGuild: Option<int>, now: nat): Row
  {
    match originGuild
    case None =>
      Row(Some(NextIdIn(t.rows, AllGlobal, t.nextId)), None, forecast, false, Global, true, None, now)
    case Some(g) =>
      Row(None, Some(NextIdIn(t.rows, InGuild(g), t.nextId)), forecast, false, Guild, false, Some(g), now)
  }

  /** The display id chosen for a fortune: `global_id if source == 'global'
      else guild_id`. */
  function DisplayId(source: Source, globalId: Option<int>, guildId: Option<int>): Option<int>
  {
    if source == Global then globalId else guildId
  }

  /** The partition a row with this origin guild is numbered in: the global
      rows, or the rows of that guild. */
  function ScopeFor(originGuild: Option<int>): Scope
  {
    if originGuild.None? then AllGlobal else InGuild(originGuild.value)
  }

  /** In a well-formed table every row has a display id, and it is the row's
      number in its own partition. */
  lemma DisplayIdIsPartitionId(t: Table, k: nat)
    requires WellFormed(t) && k in t.rows
    ensures var r := t.rows[k];
      DisplayId(r.source, r.globalId, r.guildId).Some?
      && DisplayId(r.source, r.globalId, r.guildId) == IdIn(t.rows, ScopeFor(r.originGuild), k)
  {
  }

  /** What `add_fortune` inserts has the shape of its source, is unused, is
      approved exactly when it is global, and its display id is the next one
      of its partition. */
  lemma NewRowProperties(t: Table, forecast: string, originGuild: Option<int>, now: nat)
    ensures var r := NewRow(t, forecast, originGuild, now);
      && RowShape(r) && !r.used && r.forecast == forecast && r.addedTime == now
      && r.originGuild == originGuild
      && (r.source == Global <==> originGuild.None?)
      && (r.approved <==> originGuild.None?)
      && DisplayId(r.source, r.globalId, r.guildId) == Some(NextIdIn(t.rows, ScopeFor(originGuild), t.nextId))
  {
  }

  /** In a well-formed table every MAX is itself an INTEGER. */
  lemma MaxIdIsInteger(t: Table, scope: Scope)
    requires WellFormed(t)
    ensures var m := MaxId(t.rows, scope, t.nextId); m.Some? ==> IsInteger(m.value)
  {
    var m := MaxId(t.rows, scope, t.nextId);
    if m.Some? {
      var k: nat :| k < t.nextId && IdIn(t.rows, scope, k) == m;
      assert Bindable(t.rows[k]);
    }
  }

  /** In a well-formed table the INSERT of `add_fortune` can bind its row
      unless the origin guild is out of range or the partition's MAX is
      already 2^63 - 1, the one case where MAX + 1 overflows. */
  lemma NewRowBindable(t: Table, forecast: string, originGuild: Option<int>, now: nat)
    requires WellFormed(t)
    ensures Bindable(NewRow(t, forecast, originGuild, now)) <==>
      IsIntegerOrNull(originGuild) && MaxId(t.rows, ScopeFor(originGuild), t.nextId) != Some(MaxInteger)
  {
    MaxIdIsInteger(t, ScopeFor(originGuild));
    var d := NextIdIn(t.rows, ScopeFor(originGuild), t.nextId);
    assert NewRow(t, forecast, originGuild, now).globalId ==
      if originGuild.None? then Some(d) else None;
    assert NewRow(t, forecast, originGuild, now).guildId ==
      if originGuild.None? then None else Some(d);
  }

  /** A table holding one submission of guild `g`, numbered 1, numbers the
      next submission of `g` 2, whatever the counter says. */
  lemma NextAfterOneGuildRow(r1: Row, g: int, n: nat)
    requires 2 <= n && r1.originGuild == Some(g) && r1.guildId == Some(1)
    ensures NextIdIn(map[1 := r1], InGuild(g), n) == 2
  {
    NextIdInIsFresh(map[1 := r1], InGuild(g), n);
    assert IdIn(map[1 := r1], InGuild(g), 1) == Some(1);
  }

  /** Guild display ids come from MAX + 1 over the rows still present, so
      after the highest one is deleted the next submission gets it again:
      guild 7 submits "x" (#1, key 1) and "y" (#2, key 2); deleting key 2
      leaves `map[1 := r1]` with the counter at 3, and "z" is numbered #2. */
  lemma GuildIdReusedAfterRemoval()
    ensures var r1 := NewRow(Table(map[], 1), "x", Some(7), 0);
      var r2 := NewRow(Table(map[1 := r1], 2), "y", Some(7), 0);
      var r3 := NewRow(Table(map[1 := r1], 3), "z", Some(7), 0);
      r1.guildId == Some(1) && r2.guildId == Some(2) && r3.guildId == Some(2)
  {
    var r1 := NewRow(Table(map[], 1), "x", Some(7), 0);
    NextIdInIsFresh(map[], InGuild(7), 1);
    NextAfterOneGuildRow(r1, 7, 2);
    NextAfterOneGuildRow(r1, 7, 3);
  }
}
