/**
 * The read-side endpoints of backend/main.py that return stored documents:
 * the "today" window of `/today_expenses` and the per-row loop that
 * `/today_expenses` and `/all_expenses` run over the documents the store
 * returns, rewriting each dict in place.
 */
module Listings {
  import opened Wrappers
  import opened DateTimes
  import opened PyRuntime

  /** Which endpoint runs the loop: `/all_expenses` also logs title and amount per row. */
  datatype Listing = Today | All

  /** `expense["_id"] = str(expense["_id"])` when the key is present. */
  function StringifyId(row: Row, lib: Library): (r: Row)
    ensures r.Keys == row.Keys
    ensures "_id" in row ==> r["_id"] == Str(lib.show(row["_id"]))
    ensures forall k :: k in row && k != "_id" ==> r[k] == row[k]
  {
    if "_id" in row then row["_id" := Str(lib.show(row["_id"]))] else row
  }

  /** A `datetime` under "date" becomes its ISO string; any other value stays. */
  function FormatDate(row: Row, lib: Library): (r: Row)
    requires "date" in row
    ensures r.Keys == row.Keys && !r["date"].Time?
    ensures row["date"].Time? ==> r["date"] == Str(lib.isoFormat(row["date"].t))
    ensures forall k :: k in row && (k != "date" || !row["date"].Time?) ==> r[k] == row[k]
  {
    if row["date"].Time? then row["date" := Str(lib.isoFormat(row["date"].t))] else row
  }

  /** A missing "category" becomes "Other"; a present one, whatever its value, stays. */
  function DefaultCategory(row: Row): (r: Row)
    ensures r.Keys == row.Keys + {"category"}
    ensures r["category"] == if "category" in row then row["category"] else Str("Other")
    ensures forall k :: k in row ==> r[k] == row[k]
  {
    if "category" !in row then row["category" := Str("Other")] else row
  }

  /** The three rewrites of one row, in the order the loop body applies them. */
  function Rewrite(row: Row, lib: Library): Row
    requires "date" in row
  {
    DefaultCategory(FormatDate(StringifyId(row, lib), lib))
  }

  /**
   * One pass of the loop body: `None` where it raises `KeyError`, because
   * the row has no "date", or, on `/all_expenses`, no "title" or "amount"
   * for the log line.
   */
  function NormalizeRow(row: Row, lib: Library, listing: Listing): Option<Row> {
    if "date" !in row then None
    else if listing == All && ("title" !in row || "amount" !in row) then None
    else Some(Rewrite(row, lib))
  }

  /** `after` is what a successful pass makes of `before`. */
  predicate Normalized(before: Row, after: Row, lib: Library, listing: Listing) {
    NormalizeRow(before, lib, listing) == Some(after)
  }

  /** What a row holds when its pass raised: the `_id` is already a string when "date" was missing. */
  function AfterFailure(row: Row, lib: Library): Row {
    if "date" !in row then StringifyId(row, lib) else Rewrite(row, lib)
  }

  /**
   * The result of the loop over `before`: on success every row is
   * normalised; when a row raises, the rows before it are normalised, that
   * row holds what its pass wrote before raising, and the rows after it are
   * untouched.
   */
  predicate ListingOutcome(before: seq<Row>, after: seq<Row>, lib: Library, listing: Listing, ok: bool) {
    && |after| == |before|
    && (ok <==> forall i :: 0 <= i < |before| ==> NormalizeRow(before[i], lib, listing).Some?)
    && (ok ==> forall i :: 0 <= i < |before| ==> Normalized(before[i], after[i], lib, listing))
    && (!ok ==> exists k :: 0 <= k < |before| && FailsAt(before, after, lib, listing, k))
  }

  /** Row `k` is the first to raise, and the loop stopped there. */
  predicate FailsAt(before: seq<Row>, after: seq<Row>, lib: Library, listing: Listing, k: int)
    requires |after| == |before|
  {
    && 0 <= k < |before|
    && NormalizeRow(before[k], lib, listing).None?
    && (forall i :: 0 <= i < k ==> Normalized(before[i], after[i], lib, listing))
    && after[k] == AfterFailure(before[k], lib)
    && (forall i :: k < i < |before| ==> after[i] == before[i])
  }

  /** The loop over the documents, each dict rewritten in place. */
  method NormalizeListing(rows: array<Row>, lib: Library, listing: Listing) returns (ok: bool)
    modifies rows
    ensures ListingOutcome(old(rows[..]), rows[..], lib, listing, ok)
  {
    ghost var before := rows[..];
    var n := 0;
    while n < rows.Length
      invariant 0 <= n <= rows.Length
      invariant forall i :: 0 <= i < n ==> NormalizeRow(before[i], lib, listing).Some?
      invariant forall i :: 0 <= i < n ==> Normalized(before[i], rows[i], lib, listing)
      invariant forall i :: n <= i < rows.Length ==> rows[i] == before[i]
    {
      var expense, passed := NormalizeOne(rows[n], lib, listing);
      rows[n] := expense;
      if !passed {
        assert FailsAt(before, rows[..], lib, listing, n);
        return false;
      }
      n := n + 1;
    }
    return true;
  }

  /**
   * `/today_expenses`: the window for the clock's day, then the loop over
   * `rows`, the documents the store returns for that window. Where no
   * window exists the endpoint fails before querying.
   */
  method GetTodayExpenses(clock: DateTime, rows: array<Row>, lib: Library)
    returns (window: Option<(DateTime, DateTime)>, ok: bool)
    modifies rows
    ensures window == TodayWindow(clock)
    ensures window.None? ==> !ok && rows[..] == old(rows[..])
    ensures window.Some? ==> ListingOutcome(old(rows[..]), rows[..], lib, Today, ok)
  {
    var nowUtc := NowUtc(clock);
    var todayStart := Midnight(nowUtc);
    var tomorrowStart := AddOneDay(todayStart);
    if tomorrowStart.None? {
      return None, false;
    }
    window := Some((todayStart, tomorrowStart.value));
    ok := NormalizeListing(rows, lib, Today);
  }

  /** The loop body on one dict: the rewritten dict, and whether the pass finished without raising. */
  method NormalizeOne(row: Row, lib: Library, listing: Listing) returns (expense: Row, passed: bool)
    ensures passed <==> NormalizeRow(row, lib, listing).Some?
    ensures passed ==> Normalized(row, expense, lib, listing)
    ensures !passed ==> expense == AfterFailure(row, lib)
  {
    expense := row;
    if "_id" in expense {
      expense := expense["_id" := Str(lib.show(expense["_id"]))];
    }
    if "date" !in expense {
      return expense, false;
    }
    if expense["date"].Time? {
      expense := expense["date" := Str(lib.isoFormat(expense["date"].t))];
    }
    if "category" !in expense {
      expense := expense["category" := Str("Other")];
    }
    assert expense == Rewrite(row, lib);
    passed := !(listing == All && ("title" !in expense || "amount" !in expense));
  }

  /**
   * A row that passes keeps every field except the three the loop rewrites:
   * it gains "category" if it had none, `_id` becomes a string, and "date" is
   * no longer a `datetime`.
   */
  lemma NormalizeRowEffect(row: Row, lib: Library, listing: Listing)
    ensures NormalizeRow(row, lib, listing).Some?
            <==> "date" in row && (listing == Today || ("title" in row && "amount" in row))
    ensures NormalizeRow(row, lib, listing).Some? ==>
              var r := NormalizeRow(row, lib, listing).value;
              && r.Keys == row.Keys + {"category"}
              && (forall k :: k in row && k != "_id" && k != "date" ==> r[k] == row[k])
              && ("_id" in row ==> r["_id"] == Str(lib.show(row["_id"])))
              && !r["date"].Time?
              && (row["date"].Time? ==> r["date"] == Str(lib.isoFormat(row["date"].t)))
              && (!row["date"].Time? ==> r["date"] == row["date"])
              && r["category"] == (if "category" in row then row["category"] else Str("Other"))
  {
  }

  /**
   * Once `str()` leaves strings alone, a second pass over a normalised row
   * changes nothing.
   */
  lemma NormalizeRowIdempotent(row: Row, lib: Library, listing: Listing)
    requires forall s :: lib.show(Str(s)) == s
    requires NormalizeRow(row, lib, listing).Some?
    ensures NormalizeRow(NormalizeRow(row, lib, listing).value, lib, listing) == NormalizeRow(row, lib, listing)
  {
    var r := NormalizeRow(row, lib, listing).value;
    NormalizeRowEffect(row, lib, listing);
    NormalizeRowEffect(r, lib, listing);
    var r2 := NormalizeRow(r, lib, listing).value;
    assert r2.Keys == r.Keys;
    forall k | k in r
      ensures r2[k] == r[k]
    {
      if k == "_id" {
        assert r["_id"] == Str(lib.show(row["_id"]));
      }
    }
    assert r2 == r;
  }

  /**
   * The window as written: midnight of the UTC day, and an end built by
   * `replace(day=day + 1)` on that midnight; `None` where that raises.
   */
  function TodayWindowAsWritten(clock: DateTime): Option<(DateTime, DateTime)> {
    var start := Midnight(NowUtc(clock));
    match ReplaceDay(start, start.day + 1)
    case None => None
    case Some(end) => Some((start, end))
  }

  /** The window as evidently intended: from midnight to the next midnight. */
  function TodayWindow(clock: DateTime): Option<(DateTime, DateTime)> {
    var start := Midnight(NowUtc(clock));
    match AddOneDay(start)
    case None => None
    case Some(end) => Some((start, end))
  }

  /** Finding: as written, the window fails exactly on the last day of every month. */
  lemma TodayWindowFailsAtMonthEnd(clock: DateTime)
    ensures TodayWindowAsWritten(clock).None? <==> clock.day == DaysInMonth(clock.year, clock.month)
  {
  }

  /** For instance on 31 January 2024 at noon UTC. */
  lemma TodayWindowFailsOnJanuary31()
    ensures TodayWindowAsWritten(DateTime(2024, 1, 31, 12, 0, 0, 0, None)).None?
    ensures TodayWindow(DateTime(2024, 1, 31, 12, 0, 0, 0, None))
            == Some((DateTime(2024, 1, 31, 0, 0, 0, 0, Some(0)), DateTime(2024, 2, 1, 0, 0, 0, 0, Some(0))))
  {
  }

  /**
   * The corrected window starts at UTC midnight of the reading's day and
   * ends at the following midnight, one day ordinal later; it exists on
   * every day but the last one a `datetime` can hold, and it agrees with the
   * window as written wherever that one exists.
   */
  lemma TodayWindowIsOneDay(clock: DateTime)
    ensures TodayWindow(clock).None? <==> clock.year == MaxYear && clock.month == 12 && clock.day == 31
    ensures TodayWindow(clock).Some? ==>
              var (start, end) := TodayWindow(clock).value;
              && start.(hour := clock.hour, minute := clock.minute, second := clock.second,
                        microsecond := clock.microsecond) == NowUtc(clock)
              && start.hour == 0 && start.minute == 0 && start.second == 0 && start.microsecond == 0
              && end == Midnight(end) && IsAware(end)
              && DayOrdinal(end) == DayOrdinal(start) + 1
    ensures TodayWindowAsWritten(clock).Some? ==> TodayWindow(clock) == TodayWindowAsWritten(clock)
  {
    AddOneDayIsNextDay(Midnight(NowUtc(clock)));
  }
}
