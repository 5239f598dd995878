/** The state of the dashboard component `CarSearchTool` and the handlers that change it.
    React's state setters become plain field assignments; the network fetches are left
    out and only the conversion of the fetched text is modelled. */
module Dashboard {
  import opened Wrappers
  import opened Text
  import opened Seqs
  import opened Counters
  import opened Sheet
  import opened CarSearch

  class CarSearchTool {
    var searchTerm: string
    var data: seq<Row>
    var results: seq<Row>
    var showOnlyMismatch: bool
    var showReturnedRepairedOnly: bool
    var maintenanceData: seq<Row>

    /** The rows on display are those the two toggles select from the data. */
    predicate ViewMatchesToggles()
      reads this
    {
      results == FilterView(data, maintenanceData, showOnlyMismatch, showReturnedRepairedOnly)
    }

    /** The initial state: no rows, an empty search, both toggles off. */
    constructor ()
      ensures searchTerm == "" && data == [] && results == [] && maintenanceData == []
      ensures !showOnlyMismatch && !showReturnedRepairedOnly
      ensures ViewMatchesToggles()
    {
      searchTerm, data, results := "", [], [];
      showOnlyMismatch, showReturnedRepairedOnly := false, false;
      maintenanceData := [];
      new;
      FilterViewOff([], []);
    }

    /** The bookings sheet arrives: on success both the data and the rows on display
        become its records; on failure nothing changes. */
    method LoadBookings(text: string)
      modifies this`data, this`results
      ensures ParseSheet(text).Success? ==> data == ParseSheet(text).value && results == data
      ensures ParseSheet(text).Failure? ==> data == old(data) && results == old(results)
    {
      var parsed := ParseSheet(text);
      if parsed.Success? {
        data := parsed.value;
        results := data;
      }
    }

    /** The maintenance sheet arrives: on success it replaces the maintenance log.
        The rows on display are not recomputed. */
    method LoadMaintenance(text: string)
      modifies this`maintenanceData
      ensures ParseSheet(text).Success? ==> maintenanceData == ParseSheet(text).value
      ensures ParseSheet(text).Failure? ==> maintenanceData == old(maintenanceData)
    {
      var parsed := ParseSheet(text);
      if parsed.Success? {
        maintenanceData := parsed.value;
      }
    }

    /** Typing in the search box. */
    method SetSearchTerm(term: string)
      modifies this`searchTerm
      ensures searchTerm == term
    {
      searchTerm := term;
    }

    /** `handleGlobalSearch`: display the rows some field of which, normalised, contains
        the normalised search term. The toggles keep their values but are not applied. */
    method HandleGlobalSearch()
      modifies this`results
      ensures results == SearchRows(data, Normalize(searchTerm))
      ensures SelectsMatches(results, data, Normalize(searchTerm))
    {
      var rows, keyword := data, Normalize(searchTerm);
      var found := SearchRows(rows, keyword);
      SearchRowsSelects(rows, keyword);
      results := found;
      assert data == rows && Normalize(searchTerm) == keyword;
    }

    /** `resetFilters`: both toggles off and every row on display. */
    method ResetFilters()
      modifies this`showOnlyMismatch, this`showReturnedRepairedOnly, this`results
      ensures !showOnlyMismatch && !showReturnedRepairedOnly
      ensures results == data
      ensures ViewMatchesToggles()
    {
      showOnlyMismatch := false;
      showReturnedRepairedOnly := false;
      results := data;
      FilterViewOff(data, maintenanceData);
    }

    /** `applyFilters(mismatchOnly, repairedOnly)`: start from the data, keep the mismatches
        if asked, then keep the rows ready to switch back if asked. */
    method ApplyFilters(mismatchOnly: bool, repairedOnly: bool)
      modifies this`results
      ensures results == FilterView(data, maintenanceData, mismatchOnly, repairedOnly)
      ensures IsSubsequence(results, data)
      ensures forall i | 0 <= i < |results| :: InView(results[i], maintenanceData, mismatchOnly, repairedOnly)
      ensures forall i | 0 <= i < |data| :: InView(data[i], maintenanceData, mismatchOnly, repairedOnly) ==> data[i] in results
    {
      var filtered := data;
      if mismatchOnly {
        filtered := MismatchOnly(filtered);
      }
      if repairedOnly {
        filtered := RepairedOnly(filtered, maintenanceData);
      }
      StagedFiltersAreConjunction(data, maintenanceData, mismatchOnly, repairedOnly);
      FilterViewIsSubsequence(data, maintenanceData, mismatchOnly, repairedOnly);
      FilterViewSelects(data, maintenanceData, mismatchOnly, repairedOnly);
      results := filtered;
    }

    /** The change handler of the "Show Mismatched Only" check box. */
    method ToggleMismatch()
      modifies this`showOnlyMismatch, this`results
      ensures showOnlyMismatch == !old(showOnlyMismatch)
      ensures ViewMatchesToggles()
    {
      var newValue := !showOnlyMismatch;
      showOnlyMismatch := newValue;
      ApplyFilters(newValue, showReturnedRepairedOnly);
    }

    /** The change handler of the "Show Ready to Switch Back" check box. */
    method ToggleRepaired()
      modifies this`showReturnedRepairedOnly, this`results
      ensures showReturnedRepairedOnly == !old(showReturnedRepairedOnly)
      ensures ViewMatchesToggles()
    {
      var newValue := !showReturnedRepairedOnly;
      showReturnedRepairedOnly := newValue;
      ApplyFilters(showOnlyMismatch, newValue);
    }

    /** `getAnalytics`: the total counts the rows on display; the category counts, the
        other buckets and the mismatch counter range over the whole data, skipping rows
        without a booking. */
    method GetAnalytics() returns (a: Analytics)
      ensures a.total == |results|
      ensures a.invygoCount == CategoryCount(data, Numeric)
      ensures a.dailyCount == CategoryCount(data, Daily)
      ensures a.monthlyCount == CategoryCount(data, Monthly)
      ensures a.leasingCount == CategoryCount(data, Leasing)
      ensures a.otherTypes == Tally(OtherKeys(data))
      ensures forall key :: key in a.otherTypes <==> OtherCount(data, key) > 0
      ensures forall key | key in a.otherTypes :: a.otherTypes[key] == OtherCount(data, key)
      ensures a.mismatchCount == Count(data, CountsAsMismatch)
      ensures a.invygoCount + a.dailyCount + a.monthlyCount + a.leasingCount + SumValues(a.otherTypes)
              == Count(data, HasBooking)
    {
      a := Analytics(0, 0, 0, 0, 0, map[], 0);
      for i := 0 to |data|
        invariant a.invygoCount == CategoryCount(data[..i], Numeric)
        invariant a.dailyCount == CategoryCount(data[..i], Daily)
        invariant a.monthlyCount == CategoryCount(data[..i], Monthly)
        invariant a.leasingCount == CategoryCount(data[..i], Leasing)
        invariant a.otherTypes == Tally(OtherKeys(data[..i]))
        invariant a.mismatchCount == Count(data[..i], CountsAsMismatch)
      {
        var row := data[i];
        TakeOneMore(data, i);
        CategoryStep(data[..i], row, Numeric);
        CategoryStep(data[..i], row, Daily);
        CategoryStep(data[..i], row, Monthly);
        CategoryStep(data[..i], row, Leasing);
        OtherStep(data[..i], row);
        CountSnoc(data[..i], row, CountsAsMismatch);
        a := CountRow(a, row);
      }
      assert data[..|data|] == data;
      AnalyticsTotals(data);
      TallyOfOthers(data);
      a := a.(total := |results|);
    }
  }

  /** The `forEach` callback of `getAnalytics`: a row without a booking is skipped; otherwise
      its lower-cased booking goes through the else-if chain to one counter, and the row
      adds to the mismatch counter when its normalised identifiers conflict. */
  method CountRow(acc: Analytics, row: Row) returns (next: Analytics)
    ensures next.total == acc.total
    ensures next.invygoCount == acc.invygoCount + (if BookingCategory(row) == Numeric then 1 else 0)
    ensures next.dailyCount == acc.dailyCount + (if BookingCategory(row) == Daily then 1 else 0)
    ensures next.monthlyCount == acc.monthlyCount + (if BookingCategory(row) == Monthly then 1 else 0)
    ensures next.leasingCount == acc.leasingCount + (if BookingCategory(row) == Leasing then 1 else 0)
    ensures next.otherTypes ==
            if BookingCategory(row).Other? then Bump(acc.otherTypes, BookingCategory(row).key) else acc.otherTypes
    ensures next.mismatchCount == acc.mismatchCount + (if CountsAsMismatch(row) then 1 else 0)
  {
    next := acc;
    var booking := ToLower(FieldOr(row, BookingNumber));
    assert BookingCategory(row) == Classify(booking);
    assert HasBooking(row) <==> booking != "";
    if booking == "" {
      return;
    }
    match Classify(booking) {
      case Numeric => next := next.(invygoCount := next.invygoCount + 1);
      case Daily => next := next.(dailyCount := next.dailyCount + 1);
      case Monthly => next := next.(monthlyCount := next.monthlyCount + 1);
      case Leasing => next := next.(leasingCount := next.leasingCount + 1);
      case Other(key) => next := next.(otherTypes := Bump(next.otherTypes, key));
    }
    var ejar := NormField(row, Ejar);
    var invygo := NormField(row, Invygo);
    if Truthy(ejar) && Truthy(invygo) && ejar != invygo {
      next := next.(mismatchCount := next.mismatchCount + 1);
    }
  }

  /** One more row adds one to the count of its own category and leaves the others. */
  lemma CategoryStep(rows: seq<Row>, row: Row, c: Category)
    ensures CategoryCount(rows + [row], c) == CategoryCount(rows, c) + (if BookingCategory(row) == c then 1 else 0)
  {
    CountSnoc(rows, row, r => BookingCategory(r) == c);
  }

  /** One more row bumps the bucket of its own booking when it is classified as other. */
  lemma OtherStep(rows: seq<Row>, row: Row)
    ensures Tally(OtherKeys(rows + [row])) ==
            if BookingCategory(row).Other? then Bump(Tally(OtherKeys(rows)), BookingCategory(row).key)
            else Tally(OtherKeys(rows))
  {
    var c := BookingCategory(row);
    OtherKeysSnoc(rows, row);
    if c.Other? {
      assert OtherKey(row) == [c.key];
      TallySnoc(OtherKeys(rows), c.key);
    } else {
      assert OtherKey(row) == [];
      assert OtherKeys(rows) + [] == OtherKeys(rows);
    }
  }
}
