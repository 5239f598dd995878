/** The reconciliation rules of the dashboard component `CarSearchTool`: field
    normalisation, booking classification, the mismatch and ready-to-switch-back tests
    with their join against the maintenance log, the row views selected by the search
    and by the two toggles, and the quantities of the analytics panel. */
module CarSearch {
  import opened Wrappers
  import opened Text
  import opened Seqs
  import opened Counters
  import opened Sheet

  // Columns of the bookings sheet and of the maintenance sheet.
  const Ejar: string := "EJAR"
  const Invygo: string := "INVYGO"
  const Vehicle: string := "Vehicle"
  const DateIn: string := "Date IN"

  /** `normalize(str)`: lower-cased, every white-space character removed, then trimmed. */
  function Normalize(s: string): (r: string)
    ensures NoWhitespace(r)
    ensures forall i | 0 <= i < |r| :: !IsUpper(r[i])
    ensures |r| <= |s|
  {
    var t := RemoveWhitespace(ToLower(s));
    TrimIdentity(t);
    RemoveWhitespaceKeeps(ToLower(s));
    Trim(t)
  }

  /** A string already in normal form is left as it is. */
  lemma NormalizeFixes(s: string)
    requires NoWhitespace(s) && forall i | 0 <= i < |s| :: !IsUpper(s[i])
    ensures Normalize(s) == s
  {
    ToLowerIdentity(s);
  }

  /** Normalising twice is normalising once. */
  lemma NormalizeIdempotent(s: string)
    ensures Normalize(Normalize(s)) == Normalize(s)
  {
    NormalizeFixes(Normalize(s));
  }

  /** `normalize(row[key])`; a missing column stays `undefined`. */
  function NormField(row: Row, key: string): Option<string>
  {
    if key in row then Some(Normalize(row[key])) else None
  }

  /** The kind of a booking, from its lower-cased Booking Number. */
  datatype Category = Empty | Numeric | Daily | Monthly | Leasing | Other(key: string)

  /** The else-if chain of `getAnalytics` on a lower-cased booking: empty, then numeric,
      then "daily", "monthly", "leasing" as substrings, otherwise a bucket of its own. */
  function Classify(booking: string): (c: Category)
    ensures c == Empty <==> booking == ""
    ensures c == Numeric <==> booking != "" && IsNumeric(booking)
    ensures c.Other? <==>
      (booking != "" && !IsNumeric(booking) &&
       !Contains(booking, "daily") && !Contains(booking, "monthly") && !Contains(booking, "leasing"))
    ensures c.Other? ==> c.key == booking
  {
    if booking == "" then Empty
    else if IsNumeric(booking) then Numeric
    else if Contains(booking, "daily") then Daily
    else if Contains(booking, "monthly") then Monthly
    else if Contains(booking, "leasing") then Leasing
    else Other(booking)
  }

  /** A booking containing one of the three keywords is never numeric: no text that
      `Number` reads as a number holds "daily", "monthly" or "leasing". */
  lemma WordIsNotNumeric(booking: string, word: string)
    requires word == "daily" || word == "monthly" || word == "leasing"
    requires Contains(booking, word)
    ensures !IsNumeric(booking)
  {
    var i: nat :| i <= |booking| - |word| && OccursAt(booking, word, i);
    assert booking[i] == word[0];
    LowerIsNotNumberChar(word[0]);
    if IsNumeric(booking) {
      NumericCharacters(booking, i);
    }
  }

  /** The keywords decide the category in the order daily, monthly, leasing; the numeric
      test comes first but can never claim a booking that holds a keyword. */
  lemma ClassifyKeywords(booking: string)
    ensures Classify(booking) == Daily <==> Contains(booking, "daily")
    ensures Classify(booking) == Monthly <==> !Contains(booking, "daily") && Contains(booking, "monthly")
    ensures Classify(booking) == Leasing <==>
      !Contains(booking, "daily") && !Contains(booking, "monthly") && Contains(booking, "leasing")
  {
    if Contains(booking, "daily") {
      WordIsNotNumeric(booking, "daily");
    }
    if Contains(booking, "monthly") {
      WordIsNotNumeric(booking, "monthly");
    }
    if Contains(booking, "leasing") {
      WordIsNotNumeric(booking, "leasing");
    }
  }

  /** A booking number made of digits only is counted as an Invygo booking. */
  lemma DigitBookingIsNumeric(booking: string)
    requires booking != [] && forall i | 0 <= i < |booking| :: IsDigit(booking[i])
    ensures Classify(booking) == Numeric
  {
    DigitsAreNumeric(booking);
  }

  /** The category of a row: `(row["Booking Number"] || "").toLowerCase()` classified.
      Only a row without a booking is `Empty`, and an other bucket is keyed by the
      lower-cased booking. */
  function BookingCategory(row: Row): (c: Category)
    ensures c == Empty <==> !HasBooking(row)
    ensures c.Other? ==> c.key == ToLower(FieldOr(row, BookingNumber))
  {
    Classify(ToLower(FieldOr(row, BookingNumber)))
  }

  /** `!isNaN(Number(row["Booking Number"] || ""))`, on the booking as written. */
  predicate IsNumericBooking(row: Row)
  {
    IsNumeric(FieldOr(row, BookingNumber))
  }

  /** `ejar && invygo && ejar !== invygo` on the normalised identifiers: a missing column
      never conflicts. */
  function IdsConflict(row: Row): (b: bool)
    ensures b <==>
      (Ejar in row && Invygo in row &&
       Normalize(row[Ejar]) != "" && Normalize(row[Invygo]) != "" && Normalize(row[Ejar]) != Normalize(row[Invygo]))
  {
    var ejar, invygo := NormField(row, Ejar), NormField(row, Invygo);
    Truthy(ejar) && Truthy(invygo) && ejar != invygo
  }

  /** The mismatch test of the mismatch-only filter, of the Mismatched figure and of the
      row colouring: a numeric booking (an empty one included) whose normalised
      identifiers are both non-empty and differ. Both identifiers are then present and
      written differently. */
  function IsMismatch(row: Row): (b: bool)
    ensures b ==> IsNumeric(FieldOr(row, BookingNumber))
    ensures b ==> Ejar in row && Invygo in row && row[Ejar] != row[Invygo]
  {
    IsNumericBooking(row) && IdsConflict(row)
  }

  /** `maintenanceData.find((m) => m["Vehicle"] === row["INVYGO"])`: the first maintenance
      entry whose vehicle equals the raw, unnormalised INVYGO value. */
  function FindMaintenance(maintenance: seq<Row>, row: Row): (m: Option<Row>)
    ensures m.Some? ==> m.value in maintenance && Lookup(m.value, Vehicle) == Lookup(row, Invygo)
    ensures m.None? <==> forall i | 0 <= i < |maintenance| :: Lookup(maintenance[i], Vehicle) != Lookup(row, Invygo)
  {
    match FirstIndex(maintenance, entry => Lookup(entry, Vehicle) == Lookup(row, Invygo))
    case None => None
    case Some(i) => Some(maintenance[i])
  }

  /** `maintenance && maintenance["Date IN"]`: the first log entry for the raw INVYGO
      vehicle records a return date. */
  function IsRepairDone(row: Row, maintenance: seq<Row>): (b: bool)
    ensures b <==> exists i | 0 <= i < |maintenance| ::
      Lookup(maintenance[i], Vehicle) == Lookup(row, Invygo) && Truthy(Lookup(maintenance[i], DateIn)) &&
      forall j | 0 <= j < i :: Lookup(maintenance[j], Vehicle) != Lookup(row, Invygo)
    ensures (forall i | 0 <= i < |maintenance| :: Lookup(maintenance[i], Vehicle) != Lookup(row, Invygo)) ==> !b
  {
    var found := FindMaintenance(maintenance, row);
    found.Some? && Truthy(Lookup(found.value, DateIn))
  }

  /** The ready-to-switch-back test: repair done, numeric booking, and normalised
      identifiers that differ (they may be empty or missing). Unlike a mismatch, it holds
      when only one identifier column is present, or when one normalises to "". */
  function IsReadyToSwitchBack(row: Row, maintenance: seq<Row>): (b: bool)
    ensures IsMismatch(row) ==> (b <==> IsRepairDone(row, maintenance))
    ensures b <==>
      (IsRepairDone(row, maintenance) && IsNumeric(FieldOr(row, BookingNumber)) &&
       ((Ejar in row) != (Invygo in row) ||
        (Ejar in row && Invygo in row && Normalize(row[Ejar]) != Normalize(row[Invygo]))))
  {
    IsRepairDone(row, maintenance) && IsNumericBooking(row) && NormField(row, Ejar) != NormField(row, Invygo)
  }

  /** The status shown by a row's colour: not a mismatch, a mismatch awaiting repair,
      or a mismatch whose vehicle is back from repair. */
  datatype Highlight = Plain | AwaitingRepair | Repaired

  /** The colour of a row: plain unless it is a mismatch; green when its vehicle's first
      maintenance entry has a return date, amber otherwise. A green row is one the
      ready-to-switch-back filter keeps. */
  function RowHighlight(row: Row, maintenance: seq<Row>): (h: Highlight)
    ensures h == Plain <==> !IsMismatch(row)
    ensures h == Repaired <==> IsMismatch(row) && IsRepairDone(row, maintenance)
    ensures h == AwaitingRepair <==> IsMismatch(row) && !IsRepairDone(row, maintenance)
    ensures h == Repaired ==> IsReadyToSwitchBack(row, maintenance)
  {
    if !IsMismatch(row) then Plain
    else if IsRepairDone(row, maintenance) then Repaired
    else AwaitingRepair
  }

  /** Only the first maintenance entry for a vehicle counts: entries appended after it
      change nothing, whatever their return date. */
  lemma FirstMaintenanceEntryWins(maintenance: seq<Row>, later: seq<Row>, row: Row)
    requires FindMaintenance(maintenance, row).Some?
    ensures FindMaintenance(maintenance + later, row) == FindMaintenance(maintenance, row)
    ensures IsRepairDone(row, maintenance + later) == IsRepairDone(row, maintenance)
  {
    var p := (entry: Row) => Lookup(entry, Vehicle) == Lookup(row, Invygo);
    var i := FirstIndex(maintenance, p).value;
    var j := FirstIndex(maintenance + later, p);
    assert forall k | 0 <= k < |maintenance| :: (maintenance + later)[k] == maintenance[k];
    assert j.Some? && j.value == i;
  }

  /** Without a closing maintenance entry a row is never ready to switch back. */
  lemma ReadyNeedsClosingEntry(row: Row, maintenance: seq<Row>)
    requires IsReadyToSwitchBack(row, maintenance)
    ensures exists i | 0 <= i < |maintenance| ::
      Lookup(maintenance[i], Vehicle) == Lookup(row, Invygo) && Truthy(Lookup(maintenance[i], DateIn))
  {
    var m := FindMaintenance(maintenance, row).value;
    var i :| 0 <= i < |maintenance| && maintenance[i] == m;
  }

  /** A booked row with an INVYGO vehicle and no EJAR column, whose vehicle is back from
      repair, is ready to switch back although it is no mismatch (`undefined !== "a1"`). */
  lemma ReadyWithoutEjar()
    ensures var row := map[BookingNumber := "7", Invygo := "A1"];
            var log := [map[Vehicle := "A1", DateIn := "1/1/2025"]];
            IsReadyToSwitchBack(row, log) && !IsMismatch(row)
  {
    var row := map[BookingNumber := "7", Invygo := "A1"];
    var log := [map[Vehicle := "A1", DateIn := "1/1/2025"]];
    ColumnsDistinct();
    assert Lookup(log[0], Vehicle) == Lookup(row, Invygo);
    assert Truthy(Lookup(log[0], DateIn));
    DigitsAreNumeric("7");
    assert IsRepairDone(row, log);
  }

  /** The maintenance join compares raw identifiers: a vehicle written "ABC 1" in the
      bookings sheet and "abc1" in the maintenance log is not matched, although the two
      normalise to the same identifier. */
  lemma JoinIsOnRawIdentifier()
    ensures Normalize("ABC 1") == Normalize("abc1")
    ensures var row := map[BookingNumber := "7", Ejar := "x1", Invygo := "ABC 1"];
            var log := [map[Vehicle := "abc1", DateIn := "2024-05-01"]];
            !IsRepairDone(row, log)
  {
    NormalizeSpaced();
    NormalizeFixes("abc1");
    RawLookupMisses();
  }

  lemma RawLookupMisses()
    ensures var row := map[BookingNumber := "7", Ejar := "x1", Invygo := "ABC 1"];
            var log := [map[Vehicle := "abc1", DateIn := "2024-05-01"]];
            !IsRepairDone(row, log)
  {
    var row := map[BookingNumber := "7", Ejar := "x1", Invygo := "ABC 1"];
    var log := [map[Vehicle := "abc1", DateIn := "2024-05-01"]];
    assert Lookup(log[0], Vehicle) == Some("abc1");
    assert Lookup(row, Invygo) == Some("ABC 1");
  }

  lemma NormalizeSpaced()
    ensures Normalize("ABC 1") == "abc1"
  {
    LowerSpacedPlate();
    RemoveInnerSpace("abc", "1");
    NormalizeSteps("ABC 1", "abc 1", "abc1");
  }

  /** The global search finds a plate written with a space when it is searched without. */
  lemma SpacedPlateIsFound()
    ensures RowMatches(map[Invygo := "ABC 1"], Normalize("abc1"))
  {
    NormalizeSpaced();
    NormalizeFixes("abc1");
    var row := map[Invygo := "ABC 1"];
    assert OccursAt(Normalize(row[Invygo]), "abc1", 0);
  }

  lemma LowerSpacedPlate()
    ensures ToLower("ABC 1") == "abc 1" && "abc 1" == "abc" + " " + "1" && "abc" + "1" == "abc1"
    ensures NoWhitespace("abc") && NoWhitespace("1")
  {
  }

  /** Normalisation is lower-casing, then removing white space (the trim has nothing left to do). */
  lemma NormalizeSteps(s: string, lower: string, r: string)
    requires ToLower(s) == lower && RemoveWhitespace(lower) == r
    ensures Normalize(s) == r
  {
    TrimIdentity(r);
  }

  // ---------------------------------------------------------------------------
  // Views of the rows

  /** The rows kept by the mismatch-only filter. */
  function MismatchOnly(rows: seq<Row>): (view: seq<Row>)
    ensures forall i | 0 <= i < |view| :: view[i] in rows && IsMismatch(view[i])
    ensures forall i | 0 <= i < |rows| :: IsMismatch(rows[i]) ==> rows[i] in view
  {
    Filter(rows, IsMismatch)
  }

  /** The rows kept by the ready-to-switch-back filter. */
  function RepairedOnly(rows: seq<Row>, maintenance: seq<Row>): (view: seq<Row>)
    ensures forall i | 0 <= i < |view| :: view[i] in rows && IsReadyToSwitchBack(view[i], maintenance)
    ensures forall i | 0 <= i < |rows| :: IsReadyToSwitchBack(rows[i], maintenance) ==> rows[i] in view
  {
    Filter(rows, row => IsReadyToSwitchBack(row, maintenance))
  }

  /** A row passes the toggles that are on. */
  function InView(row: Row, maintenance: seq<Row>, mismatchOnly: bool, repairedOnly: bool): (b: bool)
    ensures !mismatchOnly && !repairedOnly ==> b
    ensures b && mismatchOnly ==> IsMismatch(row)
    ensures b && repairedOnly ==> IsRepairDone(row, maintenance) && IsNumeric(FieldOr(row, BookingNumber))
  {
    (mismatchOnly ==> IsMismatch(row)) && (repairedOnly ==> IsReadyToSwitchBack(row, maintenance))
  }

  /** The rows of `data` that pass the toggles that are on, in their original order. */
  function FilterView(data: seq<Row>, maintenance: seq<Row>, mismatchOnly: bool, repairedOnly: bool): (view: seq<Row>)
    ensures forall i | 0 <= i < |view| :: view[i] in data && InView(view[i], maintenance, mismatchOnly, repairedOnly)
    ensures forall i | 0 <= i < |data| :: InView(data[i], maintenance, mismatchOnly, repairedOnly) ==> data[i] in view
    ensures !mismatchOnly && !repairedOnly ==> view == data
  {
    var inView := row => InView(row, maintenance, mismatchOnly, repairedOnly);
    FilterKeepsAll(data, inView);
    Filter(data, inView)
  }

  /** `applyFilters` narrows the rows in stages (mismatch, then ready); the outcome is the
      single pass that keeps the rows passing both toggles that are on. */
  lemma StagedFiltersAreConjunction(data: seq<Row>, maintenance: seq<Row>, mismatchOnly: bool, repairedOnly: bool)
    ensures var afterMismatch := if mismatchOnly then MismatchOnly(data) else data;
            (if repairedOnly then RepairedOnly(afterMismatch, maintenance) else afterMismatch)
              == FilterView(data, maintenance, mismatchOnly, repairedOnly)
  {
    var view := (row: Row) => InView(row, maintenance, mismatchOnly, repairedOnly);
    var ready := (row: Row) => IsReadyToSwitchBack(row, maintenance);
    if mismatchOnly && repairedOnly {
      FilterTwice(data, IsMismatch, ready, view);
    } else if mismatchOnly {
      FilterCongruent(data, IsMismatch, view);
    } else if repairedOnly {
      FilterCongruent(data, ready, view);
    } else {
      FilterKeepsAll(data, view);
    }
  }

  /** With both toggles off the view is the whole data set. */
  lemma FilterViewOff(data: seq<Row>, maintenance: seq<Row>)
    ensures FilterView(data, maintenance, false, false) == data
  {
    FilterKeepsAll(data, row => InView(row, maintenance, false, false));
  }

  /** A view holds only rows that pass the toggles that are on, and every row of the data
      that passes them. */
  lemma FilterViewSelects(data: seq<Row>, maintenance: seq<Row>, mismatchOnly: bool, repairedOnly: bool)
    ensures var view := FilterView(data, maintenance, mismatchOnly, repairedOnly);
      (forall i | 0 <= i < |view| :: view[i] in data && InView(view[i], maintenance, mismatchOnly, repairedOnly)) &&
      (forall i | 0 <= i < |data| :: InView(data[i], maintenance, mismatchOnly, repairedOnly) ==> data[i] in view)
  {
  }

  /** Every view is an order-preserving selection of the data. */
  lemma FilterViewIsSubsequence(data: seq<Row>, maintenance: seq<Row>, mismatchOnly: bool, repairedOnly: bool)
    ensures IsSubsequence(FilterView(data, maintenance, mismatchOnly, repairedOnly), data)
  {
    FilterIsSubsequence(data, row => InView(row, maintenance, mismatchOnly, repairedOnly));
  }

  /** `Object.values(row).some((val) => normalize(val).includes(keyword))`. */
  function RowMatches(row: Row, keyword: string): (b: bool)
    ensures b ==> row != map[]
    ensures keyword == "" ==> (b <==> row != map[])
  {
    exists k | k in row :: Contains(Normalize(row[k]), keyword)
  }

  /** The rows kept by the global search for a normalised keyword, in order. */
  function SearchRows(rows: seq<Row>, keyword: string): (view: seq<Row>)
    ensures forall i | 0 <= i < |view| :: view[i] in rows && RowMatches(view[i], keyword)
    ensures forall i | 0 <= i < |rows| :: RowMatches(rows[i], keyword) ==> rows[i] in view
  {
    Filter(rows, row => RowMatches(row, keyword))
  }

  /** `view` keeps, in order, only rows of `rows` some field of which contains the keyword,
      and every such row. */
  ghost predicate SelectsMatches(view: seq<Row>, rows: seq<Row>, keyword: string)
  {
    && IsSubsequence(view, rows)
    && (forall i | 0 <= i < |view| :: RowMatches(view[i], keyword))
    && (forall i | 0 <= i < |rows| :: RowMatches(rows[i], keyword) ==> rows[i] in view)
    && (forall i | 0 <= i < |rows| ::
          multiset(view)[rows[i]] == if RowMatches(rows[i], keyword) then multiset(rows)[rows[i]] else 0)
  }

  /** The search keeps, in order, exactly the rows some field of which contains the keyword,
      each as often as it occurs. */
  lemma SearchRowsSelects(rows: seq<Row>, keyword: string)
    ensures SelectsMatches(SearchRows(rows, keyword), rows, keyword)
  {
    var matches := (row: Row) => RowMatches(row, keyword);
    FilterIsSubsequence(rows, matches);
    forall i | 0 <= i < |rows|
      ensures multiset(SearchRows(rows, keyword))[rows[i]] == if matches(rows[i]) then multiset(rows)[rows[i]] else 0
    {
      FilterMultiplicity(rows, matches, rows[i]);
    }
  }

  /** The empty keyword keeps exactly the rows that have at least one field. */
  lemma EmptySearchKeepsRows(rows: seq<Row>)
    ensures SearchRows(rows, "") == rows <==> forall i | 0 <= i < |rows| :: rows[i] != map[]
  {
    var matches := (row: Row) => RowMatches(row, "");
    forall i | 0 <= i < |rows| ensures matches(rows[i]) <==> rows[i] != map[] {
      if rows[i] != map[] {
        var k :| k in rows[i];
        assert OccursAt(Normalize(rows[i][k]), "", 0);
      }
    }
    FilterKeepsAll(rows, matches);
  }

  /** Searching for a blank term keeps every record of a parsed sheet. */
  lemma BlankSearchKeepsSheet(text: string, rows: seq<Row>, term: string)
    requires ParseSheet(text) == Success(rows)
    requires AllWhitespace(term)
    ensures SearchRows(rows, Normalize(term)) == rows
  {
    RemoveWhitespaceOfBlank(ToLower(term));
    ParsedRecordsHaveColumns(text, rows);
    EmptySearchKeepsRows(rows);
  }

  // ---------------------------------------------------------------------------
  // Quantities of the analytics panel

  /** `switchBackMismatches`: the rows on display that are mismatches. */
  function SwitchBackMismatches(results: seq<Row>): (n: nat)
    ensures n <= |results|
    ensures n > 0 <==> exists i | 0 <= i < |results| :: IsMismatch(results[i])
  {
    CountPositive(results, IsMismatch);
    Count(results, IsMismatch)
  }

  /** The "Ready to Switch Back" figure: the rows on display that are ready. */
  function ReadyToSwitchBackCount(results: seq<Row>, maintenance: seq<Row>): (n: nat)
    ensures n <= |results|
    ensures n > 0 <==> exists i | 0 <= i < |results| :: IsReadyToSwitchBack(results[i], maintenance)
  {
    var ready := row => IsReadyToSwitchBack(row, maintenance);
    CountPositive(results, ready);
    Count(results, ready)
  }

  /** Under the mismatch-only filter every displayed row is a mismatch, so the mismatch
      figure equals the number of displayed rows. */
  lemma MismatchFigureUnderFilter(data: seq<Row>)
    ensures SwitchBackMismatches(MismatchOnly(data)) == |MismatchOnly(data)|
  {
    FilterKeepsAll(MismatchOnly(data), IsMismatch);
  }

  /** Under the ready-to-switch-back filter every displayed row is ready, so the "Ready to
      Switch Back" figure equals the number of displayed rows. */
  lemma ReadyFigureUnderFilter(data: seq<Row>, maintenance: seq<Row>)
    ensures ReadyToSwitchBackCount(RepairedOnly(data, maintenance), maintenance) == |RepairedOnly(data, maintenance)|
  {
    FilterKeepsAll(RepairedOnly(data, maintenance), row => IsReadyToSwitchBack(row, maintenance));
  }

  /** The summary returned by `getAnalytics`. */
  datatype Analytics = Analytics(
    total: nat,
    invygoCount: nat,
    dailyCount: nat,
    monthlyCount: nat,
    leasingCount: nat,
    otherTypes: map<string, nat>,
    mismatchCount: nat)

  /** The rows whose booking falls in category `c`. */
  function CategoryCount(rows: seq<Row>, c: Category): nat
  {
    Count(rows, row => BookingCategory(row) == c)
  }

  /** The lower-cased bookings of the rows classified as other, in order. */
  function OtherKeys(rows: seq<Row>): (keys: seq<string>)
    ensures |keys| == Count(rows, row => BookingCategory(row).Other?)
  {
    if rows == [] then []
    else
      var init, row := rows[..|rows| - 1], rows[|rows| - 1];
      assert rows == init + [row];
      CountSnoc(init, row, row => BookingCategory(row).Other?);
      OtherKeys(init) + OtherKey(row)
  }

  /** The lower-cased booking of a row classified as other, or nothing. */
  function OtherKey(row: Row): (key: seq<string>)
    ensures BookingCategory(row).Other? ==> key == [ToLower(FieldOr(row, BookingNumber))]
    ensures !BookingCategory(row).Other? ==> key == []
  {
    match BookingCategory(row)
    case Other(k) => [k]
    case _ => []
  }

  /** One more row adds its own other bucket, if any, at the end. */
  lemma OtherKeysSnoc(rows: seq<Row>, row: Row)
    ensures OtherKeys(rows + [row]) == OtherKeys(rows) + OtherKey(row)
  {
    LastSplit(rows, row);
  }

  /** The rows whose lower-cased booking is `key` and falls through to the other buckets. */
  function OtherCount(rows: seq<Row>, key: string): nat
  {
    Count(rows, row => BookingCategory(row) == Other(key))
  }

  /** Each other bucket occurs once per row whose booking it is. */
  lemma {:induction false} OtherKeysCount(rows: seq<Row>, key: string)
    ensures multiset(OtherKeys(rows))[key] == OtherCount(rows, key)
    decreases |rows|
  {
    if rows != [] {
      var init, row := rows[..|rows| - 1], rows[|rows| - 1];
      PrefixLast(rows);
      OtherKeysCount(init, key);
      OtherKeysSnoc(init, row);
      CountSnoc(init, row, row => BookingCategory(row) == Other(key));
    }
  }

  /** The other buckets of the analytics: a bucket for exactly the bookings some row falls
      through with, holding the number of such rows; together they count every such row. */
  lemma TallyOfOthers(rows: seq<Row>)
    ensures forall key :: key in Tally(OtherKeys(rows)) <==> OtherCount(rows, key) > 0
    ensures forall key | key in Tally(OtherKeys(rows)) :: Tally(OtherKeys(rows))[key] == OtherCount(rows, key)
    ensures SumValues(Tally(OtherKeys(rows))) == Count(rows, row => BookingCategory(row).Other?)
  {
    forall key ensures multiset(OtherKeys(rows))[key] == OtherCount(rows, key) {
      OtherKeysCount(rows, key);
    }
    SumValuesTally(OtherKeys(rows));
  }

  /** `row["Booking Number"]` is present and non-empty; other rows are skipped. */
  predicate HasBooking(row: Row)
  {
    FieldOr(row, BookingNumber) != ""
  }

  /** A row counted by the analytics mismatch counter: a booking of any kind, and
      normalised identifiers that are both non-empty and differ. */
  function CountsAsMismatch(row: Row): (b: bool)
    ensures b ==> BookingCategory(row) != Empty
  {
    HasBooking(row) && IdsConflict(row)
  }

  /** The counts by category cover every row with a booking exactly once. */
  lemma {:induction false} AnalyticsPartition(rows: seq<Row>)
    ensures CategoryCount(rows, Numeric) + CategoryCount(rows, Daily) + CategoryCount(rows, Monthly) +
            CategoryCount(rows, Leasing) + |OtherKeys(rows)| == Count(rows, HasBooking)
    decreases |rows|
  {
    if rows != [] {
      var init, row := rows[..|rows| - 1], rows[|rows| - 1];
      assert rows == init + [row];
      AnalyticsPartition(init);
      CountSnoc(init, row, HasBooking);
      CountSnoc(init, row, row => BookingCategory(row) == Numeric);
      CountSnoc(init, row, row => BookingCategory(row) == Daily);
      CountSnoc(init, row, row => BookingCategory(row) == Monthly);
      CountSnoc(init, row, row => BookingCategory(row) == Leasing);
      assert BookingCategory(row) == Empty <==> !HasBooking(row);
    }
  }

  /** The category counts and the other buckets add up to the rows that have a booking. */
  lemma AnalyticsTotals(rows: seq<Row>)
    ensures CategoryCount(rows, Numeric) + CategoryCount(rows, Daily) + CategoryCount(rows, Monthly) +
            CategoryCount(rows, Leasing) + SumValues(Tally(OtherKeys(rows))) == Count(rows, HasBooking)
  {
    AnalyticsPartition(rows);
    SumValuesTally(OtherKeys(rows));
  }

  /** A row with an empty booking and conflicting identifiers. */
  predicate UnbookedConflict(row: Row)
  {
    !HasBooking(row) && IdsConflict(row)
  }

  /** The mismatch-only filter keeps at most the rows the analytics counter counts plus the
      rows with an empty booking (numeric to the filter, skipped by the counter). */
  lemma MismatchFilterBound(data: seq<Row>)
    ensures |MismatchOnly(data)| <= Count(data, CountsAsMismatch) + Count(data, UnbookedConflict)
  {
    CountCovered(data, IsMismatch, CountsAsMismatch, UnbookedConflict);
  }

  /** The bound needs its second term: a row with no booking and two different vehicles is
      kept by the mismatch-only filter but not counted by the analytics counter. */
  lemma UnbookedRowIsFilteredNotCounted()
    ensures var data := [map[BookingNumber := "", Ejar := "a1", Invygo := "b2"]];
            |MismatchOnly(data)| == 1 && Count(data, CountsAsMismatch) == 0
  {
    var row := map[BookingNumber := "", Ejar := "a1", Invygo := "b2"];
    UnbookedRowIsMismatch();
    CountSnoc([], row, IsMismatch);
    CountSnoc([], row, CountsAsMismatch);
    assert [row] == [] + [row];
  }

  lemma UnbookedRowIsMismatch()
    ensures var row := map[BookingNumber := "", Ejar := "a1", Invygo := "b2"];
            IsMismatch(row) && !CountsAsMismatch(row)
  {
    var row := map[BookingNumber := "", Ejar := "a1", Invygo := "b2"];
    UnbookedRowFields();
    FieldsOfRow("", "a1", "b2");
    ConflictOfValues(row, "a1", "b2");
    MismatchOfFields("", "a1", "b2");
  }

  lemma UnbookedRowFields()
    ensures IsNumeric("") && Normalize("a1") == "a1" && Normalize("b2") == "b2" && "a1" != "b2"
  {
    NormalizeFixes("a1");
    NormalizeFixes("b2");
    EmptyIsNumeric();
    assert "a1"[0] != "b2"[0];
  }

  /** The mismatch test on a row holding just a booking and the two identifiers. */
  lemma MismatchOfFields(booking: string, ejar: string, invygo: string)
    ensures IsMismatch(map[BookingNumber := booking, Ejar := ejar, Invygo := invygo]) <==>
      IsNumeric(booking) && Normalize(ejar) != "" && Normalize(invygo) != "" && Normalize(ejar) != Normalize(invygo)
  {
    var row := map[BookingNumber := booking, Ejar := ejar, Invygo := invygo];
    FieldsOfRow(booking, ejar, invygo);
    ConflictOfValues(row, Normalize(ejar), Normalize(invygo));
  }

  /** The identifier conflict, given the two normalised identifiers. */
  lemma ConflictOfValues(row: Row, ejar: string, invygo: string)
    requires NormField(row, Ejar) == Some(ejar) && NormField(row, Invygo) == Some(invygo)
    ensures IdsConflict(row) == (ejar != "" && invygo != "" && ejar != invygo)
  {
  }

  /** What the mismatch test reads from a row holding just a booking and the two identifiers. */
  lemma FieldsOfRow(booking: string, ejar: string, invygo: string)
    ensures var row := map[BookingNumber := booking, Ejar := ejar, Invygo := invygo];
      FieldOr(row, BookingNumber) == booking &&
      NormField(row, Ejar) == Some(Normalize(ejar)) && NormField(row, Invygo) == Some(Normalize(invygo))
  {
    ColumnsDistinct();
  }

  /** The three columns the mismatch test reads are distinct. */
  lemma ColumnsDistinct()
    ensures BookingNumber != Ejar && BookingNumber != Invygo && Ejar != Invygo
  {
    assert BookingNumber[0] != Ejar[0] && BookingNumber[0] != Invygo[0];
    assert Ejar[0] != Invygo[0];
  }

  /** Identifiers that differ only in spacing and case are not a mismatch. */
  lemma SpacingIsNotMismatch()
    ensures !IsMismatch(map[BookingNumber := "4521", Ejar := "ABC 123", Invygo := "abc123"])
  {
    LowerSpacedExample();
    RemoveSpacedExample();
    NormalizeSteps("ABC 123", "abc 123", "abc123");
    NormalizeFixes("abc123");
    MismatchOfFields("4521", "ABC 123", "abc123");
  }

  /** Different vehicles on a numeric booking are a mismatch. */
  lemma DifferentVehiclesAreMismatch()
    ensures IsMismatch(map[BookingNumber := "4521", Ejar := "ABC123", Invygo := "XYZ999"])
  {
    DifferentVehiclesFields();
    MismatchOfFields("4521", "ABC123", "XYZ999");
  }

  lemma DifferentVehiclesFields()
    ensures IsNumeric("4521") && Normalize("ABC123") == "abc123" && Normalize("XYZ999") == "xyz999"
  {
    DigitsAreNumeric("4521");
    LowerPlainExamples();
    NormalizeSteps("ABC123", "abc123", "abc123");
    NormalizeSteps("XYZ999", "xyz999", "xyz999");
  }

  lemma LowerSpacedExample()
    ensures ToLower("ABC 123") == "abc 123"
  {
  }

  lemma RemoveSpacedExample()
    ensures RemoveWhitespace("abc 123") == "abc123"
  {
    SpacedPieces();
    SpaceFreePieces();
    RemoveInnerSpace("abc", "123");
  }

  lemma SpacedPieces()
    ensures "abc 123" == "abc" + " " + "123" && "abc" + "123" == "abc123"
  {
  }

  lemma SpaceFreePieces()
    ensures NoWhitespace("abc") && NoWhitespace("123")
  {
  }

  lemma LowerPlainExamples()
    ensures ToLower("ABC123") == "abc123" && ToLower("XYZ999") == "xyz999"
    ensures RemoveWhitespace("abc123") == "abc123" && RemoveWhitespace("xyz999") == "xyz999"
  {
    LowerPlainSpaceFree();
  }

  lemma LowerPlainSpaceFree()
    ensures NoWhitespace("abc123") && NoWhitespace("xyz999")
  {
  }
}
