/** `import_fortunes`: each CSV record after the header is turned into a
    global, approved, unused row, unless it is malformed or its text is
    already in the table. The records arrive already split into fields. */
module CsvImport {
  import opened Options
  import opened PyText
  import opened FortuneTable

  /** What an accepted record contributes: `int(row[0])` and `row[1].strip()`. */
  datatype Offer = Offer(globalId: int, text: string)

  /** The offer of a record with at least two fields whose id parses and
      whose stripped text is not empty; `None` for the records the loop
      skips. */
  function ParseRecord(rec: seq<string>): Option<Offer>
  {
    if |rec| < 2 then None
    else match ParseInt(rec[0])
      case None => None
      case Some(g) =>
        var text := Strip(rec[1]);
        if text == [] then None else Some(Offer(g, text))
  }

  /** The records, each parsed on its own. */
  function ParseRecords(recs: seq<seq<string>>): seq<Option<Offer>>
  {
    seq(|recs|, i requires 0 <= i < |recs| => ParseRecord(recs[i]))
  }

  /** The row `INSERT INTO fortunes (global_id, forecast, source, approved)
      VALUES (?, ?, 'global', 1)` creates; the other columns take their
      defaults. */
  function ImportedRow(o: Offer, now: nat): Row
  {
    Row(Some(o.globalId), None, o.text, false, Global, true, None, now)
  }

  /** One iteration of the loop: a skipped record or a duplicate text
      (IntegrityError, ignored) leaves the table as it is. */
  function ImportOffer(t: Table, p: Option<Offer>, now: nat): Table
    requires KeysBelow(t.rows, t.nextId)
  {
    match p
    case None => t
    case Some(o) =>
      match Insert(t, ImportedRow(o, now))
      case None => t
      case Some(t') => t'
  }

  /** The loop over the parsed records, in file order. */
  function ImportOffers(t: Table, ps: seq<Option<Offer>>, now: nat): (r: Table)
    requires KeysBelow(t.rows, t.nextId)
    ensures KeysBelow(r.rows, r.nextId) && t.nextId <= r.nextId
    ensures forall k :: k in t.rows ==> k in r.rows && r.rows[k] == t.rows[k]
    decreases |ps|
  {
    if ps == [] then t
    else ImportOffer(ImportOffers(t, ps[..|ps| - 1], now), ps[|ps| - 1], now)
  }

  /** An accepted record whose id SQLite cannot store: binding it raises
      OverflowError, which neither of the loop's `except` clauses catches,
      so the import stops there. This happens before the UNIQUE check, so a
      duplicate text with such an id stops it too. */
  predicate Overflows(p: Option<Offer>)
  {
    p.Some? && !IsInteger(p.value.globalId)
  }

  /** The position of the first record that stops the import, or the
      number of records when none does. */
  function FirstOverflow(ps: seq<Option<Offer>>): (m: nat)
    ensures m <= |ps|
    ensures forall i :: 0 <= i < m ==> !Overflows(ps[i])
    ensures m < |ps| ==> Overflows(ps[m])
  {
    if ps == [] then 0
    else if Overflows(ps[0]) then 0
    else
      var m := FirstOverflow(ps[1..]);
      assert forall i :: 1 <= i < m + 1 ==> ps[i] == ps[1..][i - 1];
      m + 1
  }

  lemma FirstOverflowStep(ps: seq<Option<Offer>>, i: nat)
    requires i < |ps| && i <= FirstOverflow(ps) && !Overflows(ps[i])
    ensures i + 1 <= FirstOverflow(ps)
  {
  }

  /** What `import_fortunes` returns, and the table it leaves. */
  datatype ImportResult = ImportResult(ok: bool, table: Table)

  /** The body of `import_fortunes` after the header: the loop runs over
      the records up to the first one that overflows; if there is one, the
      exception reaches the outer handler and the function returns False,
      keeping the rows inserted before it. */
  function ImportRecords(t: Table, recs: seq<seq<string>>, now: nat): ImportResult
    requires KeysBelow(t.rows, t.nextId)
  {
    var ps := ParseRecords(recs);
    var m := FirstOverflow(ps);
    ImportResult(m == |ps|, ImportOffers(t, ps[..m], now))
  }

  /** The import stops at record `i` when it overflows and none before it
      does. */
  lemma ImportStopsAt(t: Table, recs: seq<seq<string>>, now: nat, i: nat)
    requires KeysBelow(t.rows, t.nextId)
    requires i < |recs| && Overflows(ParseRecords(recs)[i])
    requires i <= FirstOverflow(ParseRecords(recs))
    ensures ImportRecords(t, recs, now) == ImportResult(false, ImportOffers(t, ParseRecords(recs)[..i], now))
  {
    assert FirstOverflow(ParseRecords(recs)) == i;
  }

  /** Without an overflowing record the import runs to the end and
      succeeds. */
  lemma ImportCompletes(t: Table, recs: seq<seq<string>>, now: nat)
    requires KeysBelow(t.rows, t.nextId)
    requires |recs| <= FirstOverflow(ParseRecords(recs))
    ensures ImportRecords(t, recs, now) == ImportResult(true, ImportOffers(t, ParseRecords(recs), now))
  {
    var ps := ParseRecords(recs);
    assert FirstOverflow(ps) == |ps|;
    assert ps[..|ps|] == ps;
  }

  /** A record is skipped exactly when it has fewer than two fields, its id
      does not parse, or its text is blank; an accepted record carries the
      parsed id and the stripped text, which has no surrounding space. */
  lemma ParseRecordCases(rec: seq<string>)
    ensures ParseRecord(rec).None? <==> |rec| < 2 || ParseInt(rec[0]).None? || AllBlank(StrBlanks, rec[1])
    ensures ParseRecord(rec).Some? ==>
      var o := ParseRecord(rec).value;
      && Some(o.globalId) == ParseInt(rec[0]) && o.text == Strip(rec[1])
      && o.text != [] && !IsBlank(StrBlanks, o.text[0]) && !IsBlank(StrBlanks, o.text[|o.text| - 1])
  {
    if |rec| >= 2 {
      StripEmptyIff(StrBlanks, rec[1]);
      StripEnds(StrBlanks, rec[1]);
    }
  }

  /** Importing keeps the table well-formed. */
  lemma {:induction false} ImportWellFormed(t: Table, ps: seq<Option<Offer>>, now: nat)
    requires WellFormed(t)
    requires forall i :: 0 <= i < |ps| ==> !Overflows(ps[i])
    ensures WellFormed(ImportOffers(t, ps, now))
    decreases |ps|
  {
    if ps != [] {
      ImportWellFormed(t, ps[..|ps| - 1], now);
      if ps[|ps| - 1].Some? {
        assert !Overflows(ps[|ps| - 1]);
        assert RowShape(ImportedRow(ps[|ps| - 1].value, now));
      }
    }
  }

  /** Every row the import adds gets a fresh key and is the row of one of
      the accepted records: global, approved, unused, with the CSV id and
      the stripped text. */
  lemma {:induction false} ImportedRowsComeFromRecords(t: Table, ps: seq<Option<Offer>>, now: nat)
    requires KeysBelow(t.rows, t.nextId)
    ensures var r := ImportOffers(t, ps, now);
      forall k :: k in r.rows && k !in t.rows ==>
        t.nextId <= k && exists i :: 0 <= i < |ps| && ps[i].Some? && r.rows[k] == ImportedRow(ps[i].value, now)
    decreases |ps|
  {
    if ps != [] {
      var init := ps[..|ps| - 1];
      var mid := ImportOffers(t, init, now);
      ImportedRowsComeFromRecords(t, init, now);
      var r := ImportOffer(mid, ps[|ps| - 1], now);
      forall k | k in r.rows && k !in t.rows
        ensures t.nextId <= k && exists i :: 0 <= i < |ps| && ps[i].Some? && r.rows[k] == ImportedRow(ps[i].value, now)
      {
        if k in mid.rows {
          var i :| 0 <= i < |init| && init[i].Some? && mid.rows[k] == ImportedRow(init[i].value, now);
          assert ps[i] == init[i];
        } else {
          assert r.rows[k] == ImportedRow(ps[|ps| - 1].value, now);
        }
      }
    }
  }

  /** Some accepted record carries `text`. */
  predicate Offered(ps: seq<Option<Offer>>, text: string)
  {
    exists i :: 0 <= i < |ps| && ps[i].Some? && ps[i].value.text == text
  }

  lemma OfferedSplit(ps: seq<Option<Offer>>, text: string)
    requires ps != []
    ensures Offered(ps, text) <==>
      Offered(ps[..|ps| - 1], text) || (ps[|ps| - 1].Some? && ps[|ps| - 1].value.text == text)
  {
    var init := ps[..|ps| - 1];
    if Offered(ps, text) {
      var i :| 0 <= i < |ps| && ps[i].Some? && ps[i].value.text == text;
      if i < |init| {
        assert init[i] == ps[i];
      }
    }
    if Offered(init, text) {
      var i :| 0 <= i < |init| && init[i].Some? && init[i].value.text == text;
      assert init[i] == ps[i];
    }
  }

  /** One iteration: the text is present afterwards exactly when it was
      present before or the record offers it. */
  lemma ImportOfferForecasts(t: Table, p: Option<Offer>, now: nat, text: string)
    requires KeysBelow(t.rows, t.nextId)
    ensures HasForecast(ImportOffer(t, p, now).rows, text) <==>
      HasForecast(t.rows, text) || (p.Some? && p.value.text == text)
  {
    var r := ImportOffer(t, p, now);
    if HasForecast(r.rows, text) && !HasForecast(t.rows, text) {
      var k :| k in r.rows && r.rows[k].forecast == text;
    }
    if p.Some? && p.value.text == text && !HasForecast(t.rows, text) {
      assert r.rows[t.nextId].forecast == text;
    }
    if HasForecast(t.rows, text) {
      var k :| k in t.rows && t.rows[k].forecast == text;
      assert k in r.rows && r.rows[k].forecast == text;
    }
  }

  /** After the import a text is in the table exactly when it was there
      before or some accepted record carries it: a duplicate record is
      skipped and the records after it are still imported. */
  lemma {:induction false} ImportForecasts(t: Table, ps: seq<Option<Offer>>, now: nat, text: string)
    requires KeysBelow(t.rows, t.nextId)
    ensures HasForecast(ImportOffers(t, ps, now).rows, text) <==> HasForecast(t.rows, text) || Offered(ps, text)
    decreases |ps|
  {
    if ps != [] {
      var init := ps[..|ps| - 1];
      ImportForecasts(t, init, now, text);
      ImportOfferForecasts(ImportOffers(t, init, now), ps[|ps| - 1], now, text);
      OfferedSplit(ps, text);
    }
  }

  /** A text offered by several records is stored with the first of them:
      every row the import adds carries a text that was not in the table,
      and it is the row of the earliest record offering that text. */
  lemma {:induction false} FirstOfferWins(t: Table, ps: seq<Option<Offer>>, now: nat)
    requires KeysBelow(t.rows, t.nextId)
    ensures var r := ImportOffers(t, ps, now);
      forall k :: k in r.rows && k !in t.rows ==>
        && !HasForecast(t.rows, r.rows[k].forecast)
        && exists i :: 0 <= i < |ps| && ps[i].Some? && r.rows[k] == ImportedRow(ps[i].value, now)
             && !Offered(ps[..i], r.rows[k].forecast)
    decreases |ps|
  {
    if ps != [] {
      var init := ps[..|ps| - 1];
      var mid := ImportOffers(t, init, now);
      FirstOfferWins(t, init, now);
      var r := ImportOffer(mid, ps[|ps| - 1], now);
      forall k | k in r.rows && k !in t.rows
        ensures && !HasForecast(t.rows, r.rows[k].forecast)
          && exists i :: 0 <= i < |ps| && ps[i].Some? && r.rows[k] == ImportedRow(ps[i].value, now)
               && !Offered(ps[..i], r.rows[k].forecast)
      {
        if k in mid.rows {
          var i :| 0 <= i < |init| && init[i].Some? && mid.rows[k] == ImportedRow(init[i].value, now)
            && !Offered(init[..i], mid.rows[k].forecast);
          assert ps[i] == init[i] && ps[..i] == init[..i];
        } else {
          var text := ps[|ps| - 1].value.text;
          assert r.rows[k] == ImportedRow(ps[|ps| - 1].value, now);
          assert !HasForecast(mid.rows, text);
          ImportForecasts(t, init, now, text);
          assert ps[..|ps| - 1] == init;
        }
      }
    }
  }

  /** The import succeeds exactly when no accepted record overflows, and
      then the whole fold is applied. Otherwise the records before the first
      overflowing one are imported and the rest are not. Either way the table
      stays well-formed. */
  lemma ImportRecordsOutcome(t: Table, recs: seq<seq<string>>, now: nat)
    requires WellFormed(t)
    ensures var ps := ParseRecords(recs);
      var r := ImportRecords(t, recs, now);
      && (r.ok <==> forall i :: 0 <= i < |ps| ==> !Overflows(ps[i]))
      && (r.ok ==> r.table == ImportOffers(t, ps, now))
      && (!r.ok ==> exists m ::
        && 0 <= m < |ps| && Overflows(ps[m])
        && (forall i :: 0 <= i < m ==> !Overflows(ps[i]))
        && r.table == ImportOffers(t, ps[..m], now))
      && WellFormed(r.table)
  {
    var ps := ParseRecords(recs);
    var m := FirstOverflow(ps);
    assert ps[..|ps|] == ps;
    ImportWellFormed(t, ps[..m], now);
  }

  /** A first record whose text is not blank and whose id is beyond
      2^63 - 1 ends the import before anything is inserted: `int()` accepts
      the id, the INSERT raises OverflowError, `import_fortunes` returns
      False, and none of the records after it is imported. */
  lemma OutOfRangeIdStopsImport(t: Table, g: int, text: string, rest: seq<seq<string>>, now: nat)
    requires WellFormed(t) && MaxInteger < g
    requires Strip(text) != []
    ensures ImportRecords(t, [[Decimal(g), text]] + rest, now) == ImportResult(false, t)
  {
    var recs := [[Decimal(g), text]] + rest;
    ParseDecimal(g);
    assert recs[0] == [Decimal(g), text];
    assert ParseRecords(recs)[0] == Some(Offer(g, Strip(text)));
    ImportStopsAt(t, recs, now, 0);
    assert ParseRecords(recs)[..0] == [];
  }

  /** A first record whose text is blank is skipped by `if forecast:`
      before its id is ever bound, whatever the id (one beyond 2^63 - 1
      included): the import is that of the records after it. */
  lemma BlankTextSkipped(t: Table, id: string, text: string, rest: seq<seq<string>>, now: nat)
    requires WellFormed(t) && AllBlank(StrBlanks, text)
    ensures ImportRecords(t, [[id, text]] + rest, now) == ImportRecords(t, rest, now)
  {
    StripEmptyIff(StrBlanks, text);
    assert ParseRecord([id, text]) == None;
    ParseRecordsCons([id, text], rest);
    SkippedFirst(t, ParseRecords(rest), now);
  }

  /** Parsing a record in front of others puts its offer in front. */
  lemma ParseRecordsCons(rec: seq<string>, rest: seq<seq<string>>)
    ensures ParseRecords([rec] + rest) == [ParseRecord(rec)] + ParseRecords(rest)
  {
    var recs := [rec] + rest;
    assert forall i :: 1 <= i < |recs| ==> recs[i] == rest[i - 1];
  }

  /** Over the parsed records, a skipped one in front moves the first
      overflow by one and leaves the imported prefix unchanged. */
  lemma SkippedFirst(t: Table, qs: seq<Option<Offer>>, now: nat)
    requires KeysBelow(t.rows, t.nextId)
    ensures var ps := [None] + qs;
      var m := FirstOverflow(qs);
      && FirstOverflow(ps) == m + 1
      && ImportOffers(t, ps[..m + 1], now) == ImportOffers(t, qs[..m], now)
  {
    var ps: seq<Option<Offer>> := [None] + qs;
    assert ps[1..] == qs;
    var m := FirstOverflow(qs);
    assert ps[..m + 1] == [None] + qs[..m];
    ImportOffersSkipFirst(t, qs[..m], now);
  }

  /** A skipped record in front changes nothing in the fold. */
  lemma {:induction false} ImportOffersSkipFirst(t: Table, qs: seq<Option<Offer>>, now: nat)
    requires KeysBelow(t.rows, t.nextId)
    ensures ImportOffers(t, [None] + qs, now) == ImportOffers(t, qs, now)
    decreases |qs|
  {
    if qs != [] {
      var q := qs[..|qs| - 1];
      assert ([None] + qs)[..|qs|] == [None] + q;
      ImportOffersSkipFirst(t, q, now);
    } else {
      assert ([None] + qs)[..0] == [];
    }
  }
}
