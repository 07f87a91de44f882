# Batune fortune table — a Dafny model

Batune is a Discord bot that posts one "fortune" (a short forecast text)
on a schedule. Its fortunes live in one SQLite table, `fortunes`. The rows
come from two places:

- **Global fortunes** are imported from a CSV file (`full_entries.csv`) or
  added without a guild. They are numbered by `global_id`.
- **Guild fortunes** are submitted from a guild. Each guild numbers them
  with its own `guild_id`, and a guild fortune waits for moderator
  approval.

A second table, `current_index`, holds one cursor `idx`. On each post the
bot:

1. delivers the oldest unused approved guild fortune, if there is one;
2. otherwise delivers the unused global fortune at position `idx` in
   `global_id` order, and advances `idx`;
3. when neither exists, resets every row to unused, sets `idx` to 0, and
   tries again.

This project models that table and the functions of `batunebot.py` that
act on it. It proves what those functions guarantee.

- `options.dfy` — `Option`.
- `pytext.dfy` — the Python text functions the import relies on:
  - `str.strip()`, which strips the characters `str.isspace` accepts;
  - `int(str)` for ASCII decimal text, including a sign, single `_`
    separators and the whitespace `int()` trims around the number. That is
    the `str.isspace` set without the four ASCII separators
    U+001C..U+001F, which `int()` rejects;
  - `str(int)`, which is used only to state the round trip
    `int(str(n)) == n`.
- `table.dfy` — the row, the table and its AUTOINCREMENT counter. It
  defines:
  - the table invariant: keys lie in `[1, counter)`, `forecast` is
    UNIQUE, and every row has a global or a guild shape;
  - the INSERT with its IntegrityError;
  - the `MAX(...) + 1` display-id allocation;
  - the display id `global_id if source == 'global' else guild_id`.
- `rotation.dfy` — `get_next_fortune` as pure functions:
  - the two SELECTs, with their orderings, `LIMIT 1` and `OFFSET`;
  - marking the chosen row used;
  - the reset, followed by one retry;
  - the properties of this rotation, with a concrete four-row run.
- `csvimport.dfy` — the import loop of `import_fortunes` as a fold over
  the parsed records, with what it guarantees about the resulting table.
- `listing.dfy` — splitting a listing into messages of at most 10 lines.
- `store.dfy` — class `FortuneStore`: the two tables as one object, with
  one method for each of `import_fortunes`, `add_fortune`,
  `remove_fortune`, `reject_fortune`, `approve_fortune`, `reset_fortunes`
  and `get_next_fortune`. Each method's contract ties the new state to
  the functions above.

The model follows the code as written, including these behaviours of it:

- **Rows are skipped.** `get_next_fortune` is documented as getting "the
  next fortune in sequence" (batunebot.py:131), and its fallback as
  resetting "and get the first one" once no fortunes are left
  (batunebot.py:171). But the global SELECT applies `OFFSET idx` to the
  rows that are *still unused*, and `idx` grows while that set shrinks, so
  the rotation skips rows long before every row is used. With four global
  rows it yields g1, g3, g1, g3, … and never g2 or g4
  (`Rotation.OffsetSkipsRows`).
- **Guild ids are reused.** A new guild id is `MAX(guild_id) + 1` over the
  rows still present. After the highest one is removed, its number is
  handed out again (`FortuneTable.GuildIdReusedAfterRemoval`,
  `Store.GuildIdReusedThroughStore`).
- **No separate pending table.** A guild submission is a row of the same
  table with `approved = 0`. Approving a row that is already approved
  still reports success.
- **Global submissions are auto-approved.** An `add_fortune` without a
  guild is approved at once. It shares the `global_id` numbering with the
  imported rows (`MAX(global_id) + 1`).
- **Integers are 64-bit.** SQLite stores an INTEGER in a signed 64-bit
  word, and Python's sqlite3 raises OverflowError when asked to bind an
  `int` outside it. Neither the import loop's handlers nor `add_fortune`'s
  catch that error. A CSV record with a non-blank text and an id outside
  the range therefore ends `import_fortunes` through its outer
  `except Exception`: it returns False, and the records after that one
  are not imported (`CsvImport.OutOfRangeIdStopsImport`). A record whose
  text is blank is skipped by `if forecast:` before its id is bound,
  whatever the id (`CsvImport.BlankTextSkipped`). `add_fortune` raises
  when MAX(...) is already 2^63 - 1 (`FortuneTable.NewRowBindable`).
  `remove_fortune`, `reject_fortune` and `approve_fortune` raise for an
  id outside the range. The model returns this as `OverflowError`, with
  the table unchanged.
- **A table with nothing to deliver never terminates.** When the table
  has no global row and no approved guild row (an empty table, or one with
  only unapproved guild rows), `get_next_fortune` calls itself forever. The
  model performs the reset and the retry once, and returns `None` in that
  case (`Rotation.EmptyResultIsAFixedPoint` shows that further retries
  change nothing).

Ties in `ORDER BY added_time` are broken by the lowest primary key, and
ties in `ORDER BY global_id` by the primary key. SQL leaves both orders
unspecified.

## Model

| member | source | states |
|---|---|---|
| PyText.Strip | batunebot.py:53 | `row[1].strip()`: the input without its leading and trailing `str.isspace` characters. Its properties are stated by `StripShape`, `StripEmptyIff`, `StripOfTrimmed` and `StripIdempotent`. |
| PyText.ParseInt | batunebot.py:52 | `int(row[0])` on ASCII text: `None` where Python raises ValueError. It trims only the whitespace `int()` trims. What it accepts is stated by `ParseDigitRun` and `ParseDecimal`, and what it rejects by `IntKeepsSeparators`. |
| PyText.LeadingBlanks | batunebot.py:52-53 | The count of leading blanks: every character before it is blank, and the one at it is not. |
| PyText.TrailingBlanks | batunebot.py:52-53 | The count of trailing blanks: every character after the cut is blank, and the one before it is not. |
| PyText.IntKeepsSeparators | batunebot.py:52-53 | A U+001C..U+001F separator before or after a digit run makes `int()` fail, while `strip()` removes the same separator from both ends. |
| PyText.StripShape | batunebot.py:52-53 | For either blank set, the strip returns a contiguous slice of its input whose surroundings are all blank and that neither starts nor ends with a blank. |
| PyText.StripEnds | batunebot.py:52-53 | What the strip keeps neither starts nor ends with a blank. |
| PyText.StripEmptyIff | batunebot.py:53-55 | The stripped text is empty exactly when the field is all blank, which for `strip()` is when the import skips it. |
| PyText.StripOfTrimmed | batunebot.py:52-53 | Text without a blank at either end is unchanged by the strip. |
| PyText.StripIdempotent | batunebot.py:52-53 | Stripping twice gives the same text as stripping once. |
| PyText.DecimalDigitsRun | batunebot.py:52 | The decimal digits of a natural number form a well-formed digit run whose value is that number. |
| PyText.DigitIsNotSpace | batunebot.py:52 | Digits and the minus sign are blank to neither `str.isspace` nor `int()`, so `int()`'s strip keeps them. |
| PyText.ParseDigitRun | batunebot.py:52 | `int()` accepts a digit run (with single underscores) and its negation, and returns their values. |
| PyText.ParseDecimal | batunebot.py:52 | `int()` reads back every integer from its decimal form. |
| FortuneTable.Insert | batunebot.py:56-63 | An INSERT fails exactly when the text is already present, and then changes nothing. Otherwise it stores the row under the next key, keeps every old row, advances the counter and preserves the table invariant. |
| FortuneTable.IsGuildRow | batunebot.py:108 | The row that `WHERE id=? AND source="guild"` matches. It is the success condition in the contracts of `RemoveFortune`, `RejectFortune` and `ApproveFortune`. |
| FortuneTable.MaxId | batunebot.py:82-83 | MAX over a partition's ids is NULL exactly when the partition has none. Otherwise it is one of them and is at least every other. |
| FortuneTable.NextIdIn | batunebot.py:82-91 | `(MAX(...) or 0) + 1` over a partition. Its properties are stated by `NextIdInIsFresh`. |
| FortuneTable.MaxIdIsInteger | batunebot.py:82-89 | In a well-formed table every MAX is itself a 64-bit INTEGER. |
| FortuneTable.NextIdInIsFresh | batunebot.py:82-91 | The allocated id is above every id of the partition. It is 1 for an empty partition and otherwise follows an existing id. |
| FortuneTable.NewRow | batunebot.py:77-100 | The row `add_fortune` inserts. Its shape is stated by `NewRowProperties`, and when it can be bound by `NewRowBindable`. |
| FortuneTable.NewRowBindable | batunebot.py:82-100 | In a well-formed table, the new row fits SQLite's 64-bit INTEGER exactly when the origin guild fits and the partition's MAX is not already 2^63 - 1. Otherwise the INSERT raises OverflowError. |
| FortuneTable.NewRowProperties | batunebot.py:77-100 | Without a guild, the new row is global and approved, with a fresh global id. With a guild, it is a guild row, unapproved, with an id fresh within that guild and that guild as its origin. |
| FortuneTable.DisplayId | batunebot.py:179 | `global_id if source == 'global' else guild_id`. That this is the row's number in its own partition is stated by `DisplayIdIsPartitionId`. |
| FortuneTable.DisplayIdIsPartitionId | batunebot.py:179 | The displayed id of a stored row is its id in its own numbering: the global id of a global row, the guild id of a guild row. |
| FortuneTable.NextAfterOneGuildRow | batunebot.py:88-90 | After one submission of a guild numbered 1, the next submission of that guild is numbered 2. |
| FortuneTable.GuildIdReusedAfterRemoval | batunebot.py:88-90 | Removing a guild's highest-numbered row makes its next submission reuse that number. |
| Rotation.OldestGuild | batunebot.py:137-144 | The guild SELECT returns an unused approved guild row with the earliest `added_time`. It returns none exactly when no such row exists. |
| Rotation.GlobalBeforeOrder | batunebot.py:158 | `ORDER BY global_id` with a key tie-break is a strict total order on global rows. |
| Rotation.SortedCons | batunebot.py:158 | A key stays sorted in front of a sorted queue when it orders before that queue's head. |
| Rotation.InsertByGlobalId | batunebot.py:154-160 | Inserting a row into a sorted queue keeps the queue sorted and adds exactly that row. |
| Rotation.GlobalQueue | batunebot.py:154-160 | The rows the global SELECT ranks are exactly the unused global rows, in global-id order. |
| Rotation.SortedUnique | batunebot.py:158 | Two sorted queues with the same members are equal, so the ranking the OFFSET applies to is unique. |
| Rotation.Select | batunebot.py:136-161 | A guild row is chosen exactly when an unused approved guild row exists, and it is the earliest such row. Otherwise the choice is the global row at position `idx` of the queue. The pass finds nothing exactly when there is no guild candidate and `idx` is past the end of the queue. |
| Rotation.MarkUsed | batunebot.py:149-166 | `UPDATE fortunes SET used=1 WHERE id=?`. What it changes is stated by `DeliveredRow` and `MarkUsedWellFormed`. |
| Rotation.ResetRows | batunebot.py:126 | `UPDATE fortunes SET used=0`. Its properties are stated by `ResetRowsProperties` and `ResetRowsWellFormed`. |
| Rotation.Deliver | batunebot.py:132-169 | One pass of `get_next_fortune` without the reset. It is characterized by `DeliveredRow`, `NoDoubleDelivery` and `DeliverWellFormed`. |
| Rotation.NextFortune | batunebot.py:130-173 | `get_next_fortune` with one reset and one retry. It is characterized by `GuildSubmissionFirst`, `GlobalAtCursor`, `ResetAndRetry`, `EmptyResultIsAFixedPoint`, `NeverUnapproved` and `NextFortuneWellFormed`. |
| Rotation.ResetRowsProperties | batunebot.py:124-128 | The reset clears every `used` flag, keeps every row and every other column, and is idempotent. |
| Rotation.GuildSubmissionFirst | batunebot.py:136-151 | While an unused approved guild row exists, the call returns the earliest such row, marks only that row used, and leaves the cursor alone. |
| Rotation.GlobalAtCursor | batunebot.py:153-169 | With no guild row to deliver, the call returns the unused global row at the cursor in global-id order, marks it used and advances the cursor by one. |
| Rotation.ResetAndRetry | batunebot.py:171-173 | When both SELECTs come back empty, the result is the first pass over the reset table, taken from cursor 0. It finds a fortune exactly when a global row or an approved guild row exists. |
| Rotation.EmptyResultIsAFixedPoint | batunebot.py:171-173 | When no fortune comes back, the table is already reset and the cursor is 0, so every further retry finds nothing: the recursion never ends. |
| Rotation.DeliveredRow | batunebot.py:146-169 | A pass returns a row that was unused and, if it is a guild row, approved. It marks exactly that row used. |
| Rotation.NoDoubleDelivery | batunebot.py:146-169 | Without a reset in between, two consecutive passes return different rows. |
| Rotation.NeverUnapproved | batunebot.py:130-173 | Every call keeps every key and never returns an unapproved guild row. The row it returns is left marked used. |
| Rotation.MarkUsedWellFormed | batunebot.py:149 | Marking a row used preserves the table invariant. |
| Rotation.ResetRowsWellFormed | batunebot.py:126 | The reset preserves the table invariant. |
| Rotation.DeliverWellFormed | batunebot.py:146-169 | One pass preserves the table invariant. |
| Rotation.NextFortuneWellFormed | batunebot.py:130-173 | A full call, reset included, preserves the table invariant. On a well-formed table every row it returns is approved. |
| Rotation.QueueIs | batunebot.py:154-160 | A sorted sequence of exactly the unused global rows is the queue. |
| Rotation.NoGuildInFour | batunebot.py:137-144 | A table of global rows only has no guild row to deliver. |
| Rotation.SelfNumberedSorted | batunebot.py:158 | Rows whose global id is their key are in global-id order when their keys increase. |
| Rotation.FirstCall | batunebot.py:153-169 | With g1..g4 unused and the cursor at 0, the call returns g1 and moves the cursor to 1. |
| Rotation.SecondCall | batunebot.py:153-169 | With g2..g4 unused and the cursor at 1, the call returns g3 (the OFFSET skips g2) and moves the cursor to 2. |
| Rotation.ThirdCall | batunebot.py:153-173 | With g2 and g4 unused and the cursor at 2, nothing is found, and the reset returns the table to its first state. |
| Rotation.OffsetSkipsRows | batunebot.py:153-173 | Three calls on four fresh global rows return g1, g3, then g1 again, and the third call leaves the state the first did, so g2 and g4 are never delivered. |
| CsvImport.ParseRecord | batunebot.py:50-55 | The filters of the loop body, in their order. Its cases are stated by `ParseRecordCases`. |
| CsvImport.ImportedRow | batunebot.py:57-60 | The row the import's INSERT creates. Its use is stated by `ImportedRowsComeFromRecords` and `FirstOfferWins`. |
| CsvImport.ImportOffer | batunebot.py:56-63 | One iteration: a skipped record or an IntegrityError leaves the table unchanged. It is characterized by `ImportOfferForecasts`. |
| CsvImport.FirstOverflow | batunebot.py:48-66 | The position of the first record that raises OverflowError. No record before it overflows, and the one at it does. |
| CsvImport.ImportRecords | batunebot.py:47-71 | The import after the header, with its return value. It is characterized by `ImportRecordsOutcome`. |
| CsvImport.ImportStopsAt | batunebot.py:56-71 | An overflowing record ends the import with False, after the records before it. |
| CsvImport.ImportCompletes | batunebot.py:48-68 | Without an overflowing record, the import returns True after the whole fold. |
| CsvImport.ImportRecordsOutcome | batunebot.py:47-71 | The import returns True exactly when no accepted record's id overflows, and then the whole fold is applied. Otherwise exactly the records before the first overflowing one are imported. The table stays well-formed either way. |
| CsvImport.OutOfRangeIdStopsImport | batunebot.py:52-71 | A first record with a non-blank text and an id beyond 2^63 - 1 makes the import return False with nothing inserted, whatever follows it. |
| CsvImport.BlankTextSkipped | batunebot.py:53-55 | A first record with a blank text is skipped whatever its id, one beyond 2^63 - 1 included: the import, its result and its table are those of the records after it. |
| CsvImport.ImportOffersSkipFirst | batunebot.py:48-66 | A skipped record in front of the others changes nothing in the loop. |
| CsvImport.FirstOfferWins | batunebot.py:56-63 | Every row the import adds carries a text that was absent before. It is the row of the earliest record offering that text; later duplicates are skipped. |
| CsvImport.ParseRecordCases | batunebot.py:50-55 | A record yields an entry exactly when it has at least two fields, its first field is an integer to `int()`, and its second field is not blank. The entry is that integer and the stripped text. |
| CsvImport.ImportOffers | batunebot.py:48-66 | The import only adds rows: every old row is kept, the counter never decreases, and every key stays below the counter. |
| CsvImport.ImportWellFormed | batunebot.py:56-63 | Over records whose ids fit the INTEGER range, the import preserves the table invariant. |
| CsvImport.ImportedRowsComeFromRecords | batunebot.py:56-60 | Every row the import adds is an approved, unused global row whose global id and text come from one of the records. |
| CsvImport.OfferedSplit | batunebot.py:48 | A text is offered by a list of entries exactly when it is offered by its prefix or by its last entry. |
| CsvImport.ImportOfferForecasts | batunebot.py:56-63 | After one entry, a text is present exactly when it was present before or the entry offered it. |
| CsvImport.ImportForecasts | batunebot.py:48-66 | After the import, a text is present exactly when it was present before or some valid record offered it. |
| Listing.Chunks | batunebot.py:312 | `[fortune_list[i:i + 10] for i in range(0, len(fortune_list), 10)]`. It is characterized by `ChunksFlatten` and `ChunkSizes`. |
| Listing.ChunksStep | batunebot.py:312 | The chunking of a list longer than 10 is its first 10 items followed by the chunking of the rest. |
| Listing.ChunksFlatten | batunebot.py:312 | Concatenating the chunks gives back the list. |
| Listing.ChunkSizes | batunebot.py:312 | There are ⌈n/10⌉ chunks. Each has 1 to 10 items, and all but the last have exactly 10. |
| Store.FortuneStore.constructor | batunebot.py:20-40 | The freshly created tables are empty, with the counter at 1 and the index at 0. |
| Store.FortuneStore.ImportFortunes | batunebot.py:42-71 | A file without a header returns False and changes nothing. Otherwise the return value and the table are those of `ImportRecords` over the records after the header. The invariant and the index are kept. |
| Store.FortuneStore.ImportBody | batunebot.py:48-71 | The loop over the records after the header. An overflowing record ends it with False. The return value and the table are those of `ImportRecords`. |
| Store.FortuneStore.ImportRecord | batunebot.py:49-66 | One record: skipped when a field is missing, its id is invalid, its text is blank or its text is a duplicate. An overflowing id is reported and leaves the table unchanged. Otherwise the record is inserted as an approved global row. |
| Store.FortuneStore.AddFortune | batunebot.py:73-104 | OverflowError exactly when the new row cannot be bound. Otherwise `None` exactly when the text is present. Neither of those changes anything. In the remaining case the call returns the new key, which is above every existing key, and adds exactly the new row. |
| Store.FortuneStore.RemoveFortune | batunebot.py:106-110 | OverflowError exactly when the id is outside the INTEGER range. Otherwise it succeeds exactly when the id names a guild row, and deletes exactly that row. |
| Store.FortuneStore.RejectFortune | batunebot.py:112-116 | The same as removal: OverflowError outside the range; otherwise success exactly on a guild row, deleting exactly that row. |
| Store.FortuneStore.ApproveFortune | batunebot.py:118-122 | OverflowError outside the range. Otherwise success exactly when the id names a guild row, including one already approved, and only that row's `approved` is set. |
| Store.FortuneStore.ResetFortunes | batunebot.py:124-128 | Every row becomes unused and the index becomes 0. |
| Store.FortuneStore.DeliverOnce | batunebot.py:132-169 | One pass of the two SELECTs: the new state and the result are those of the pass function, and nothing changes when both SELECTs are empty. |
| Store.FortuneStore.GetNextFortune | batunebot.py:130-173 | The result and the new state are the rotation function's. A returned fortune's row was approved and is now marked used, and the invariant is kept. |
| Store.NextGlobalAfterSelfNumbered | batunebot.py:82-84 | On a table of global rows 1..n-1 numbered by their keys, the next global id is n. |
| Store.AddSelfNumbered | batunebot.py:77-100 | The row added for a new global text on such a table is the row the import stores. |
| Store.AddNextGlobal | batunebot.py:73-104 | On such a table, adding a new global text appends it as row n. |
| Store.AddFourGlobals | batunebot.py:73-104 | Adding "a".."d" to an empty store yields the rows g1..g4. |
| Store.GuildIdReusedThroughStore | batunebot.py:73-110 | Through the object: guild 7's submissions "x" and "y" are numbered 1 and 2; after `remove_fortune` deletes the second, the next submission is numbered 2 again. |
| Store.FourGlobalsRotation | batunebot.py:130-173 | Through the object, three calls on those rows return #1, #3 and #1. |

## Left out

- Discord plumbing is not part of this model: the client, the channel
  lookups, message formatting and the `on_message` handler with its `mika add`,
  `mika remove`, `mika list`, … commands (batunebot.py:11-17, 175-186,
  194-356). This includes their regular expressions and permission
  checks.
- The scheduler that calls `post_fortune` is not part of this model
  (batunebot.py:188-192). Its `except Exception` around
  `get_next_fortune` is left out too.
- File I/O is left out. The import receives the CSV file's records as
  already split by `csv.reader` (batunebot.py:45-47). A missing or
  unreadable file is left out; the only I/O failure modelled is the empty
  file whose header `next()` fails. The export command is not part of
  this model (batunebot.py:338-354).
- The clock is a parameter. `CURRENT_TIMESTAMP` becomes the natural-number
  `now` passed to `AddFortune` and `ImportFortunes`. One import uses one
  `now` for all its rows.
- SQLite persistence, `commit` and connection handling are left out. The
  object's state is the database as the bot's one connection sees it. When
  an overflowing record ends the import, the rows inserted before it stay
  in that view, uncommitted until a later function commits.
- FortuneTable.Insert: does not model the AUTOINCREMENT key running out
  after 2^63 - 1 insertions (SQLITE_FULL). The counter is unbounded.
- The `on_ready` rule that imports only into an empty table is left out
  (batunebot.py:197-198). It is startup glue around `ImportFortunes`.
- The orderings and formatting of the list, pending and export commands
  are left out. Only their splitting into 10-line messages is modelled.
- PyText.ParseInt: accepts ASCII digits only. Python's `int()` also
  accepts other Unicode decimal digits, and it raises ValueError for
  inputs of more than 4300 digits; neither is modelled. The source skips
  a CSV id that long. The model parses it instead: when the record's text
  is not blank and the value is beyond 2^63 - 1 the import ends with an
  overflow, and otherwise the record is handled as any other (with leading
  zeros and a non-blank text, the row is imported).
- Store.FortuneStore.GetNextFortune: returns `None` where the source recurses
  without end. That is a table with no global row and no approved guild
  row. There, CPython would raise RecursionError, which `post_fortune`
  catches.
- `mika.py` is not part of this model. It is a separate question-of-the-day
  bot that keeps its questions in a text file and never touches the table.
