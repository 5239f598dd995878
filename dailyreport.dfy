/** The daily booking report `DailyBookingReport`: the bookings picked up on a chosen
    date, and the number of cars booked per model with its total. */
module DailyReport {
  import opened Wrappers
  import opened Text
  import opened Seqs
  import opened Counters
  import opened Sheet
  import CarSearch

  // Columns and fixed labels of the report.
  const PickUpDate: string := "Pick-up Date"
  const ModelColumn: string := "Model"
  /** The bucket of a booking without a model ("not specified"). */
  const Unspecified: string := "غير محدد"
  /** Any model whose lower-cased name contains this marker is counted as `TiggoModel`. */
  const TiggoProMarker: string := "tiggo 4 pro"
  const TiggoModel: string := "Tiggo 4 2025"

  /** `pad(v)`: a falsy part reads "00"; otherwise the part, left-padded with '0' to two characters. */
  function Pad(v: Option<string>): (r: string)
    ensures |r| >= 2
    ensures !Truthy(v) ==> r == "00"
    ensures Truthy(v) ==> |r| == if |v.value| < 2 then 2 else |v.value|
    ensures Truthy(v) ==> r[|r| - |v.value|..] == v.value
    ensures Truthy(v) ==> forall i | 0 <= i < |r| - |v.value| :: r[i] == '0'
  {
    if !Truthy(v) then "00"
    else if |v.value| == 1 then "0" + v.value
    else v.value
  }

  /** A part used as written in the template literal: a missing one prints "undefined". */
  function PartText(v: Option<string>): string
  {
    if v.Some? then v.value else "undefined"
  }

  /** `parts[i]`, which is `undefined` past the end. */
  function Part(parts: seq<string>, i: nat): Option<string>
  {
    if i < |parts| then Some(parts[i]) else None
  }

  /** The date key of a raw pick-up date: the text before the first space, with every '/'
      turned into '-', split at '-'; a first part of four characters is read year, month,
      day, anything else day, month, year; the key is year-month-day with month and day padded. */
  function DateKey(raw: string): (key: string)
    ensures |key| >= 6 && '-' in key
  {
    var cleaned := ReplaceAll(Split(raw, ' ')[0], '/', '-');
    var parts := Split(cleaned, '-');
    if |parts[0]| == 4 then
      PartText(Part(parts, 0)) + "-" + Pad(Part(parts, 1)) + "-" + Pad(Part(parts, 2))
    else
      PartText(Part(parts, 2)) + "-" + Pad(Part(parts, 1)) + "-" + Pad(Part(parts, 0))
  }

  /** The filter of `filteredByDate`: a row with a non-empty pick-up date whose key is the
      selected date. A row without a pick-up date shows on no date. */
  function OnDate(row: Row, selectedDate: string): (b: bool)
    ensures b ==> PickUpDate in row && row[PickUpDate] != ""
  {
    Truthy(Lookup(row, PickUpDate)) && DateKey(row[PickUpDate]) == selectedDate
  }

  /** `filteredByDate`: the rows picked up on the selected date, in order. */
  function FilteredByDate(data: seq<Row>, selectedDate: string): (view: seq<Row>)
    ensures forall i | 0 <= i < |view| :: view[i] in data && OnDate(view[i], selectedDate)
    ensures forall i | 0 <= i < |data| :: OnDate(data[i], selectedDate) ==> data[i] in view
  {
    Filter(data, row => OnDate(row, selectedDate))
  }

  /** A row is on display exactly when it is a row of the data picked up on the selected date,
      as often as it occurs in the data, and the rows on display keep their order. */
  lemma FilteredByDateExactly(data: seq<Row>, selectedDate: string, row: Row)
    ensures row in FilteredByDate(data, selectedDate) <==> row in data && OnDate(row, selectedDate)
    ensures multiset(FilteredByDate(data, selectedDate))[row] ==
            if OnDate(row, selectedDate) then multiset(data)[row] else 0
    ensures IsSubsequence(FilteredByDate(data, selectedDate), data)
  {
    FilterMultiplicity(data, row => OnDate(row, selectedDate), row);
    var r := FilteredByDate(data, selectedDate);
    if row in r {
      var i :| 0 <= i < |r| && r[i] == row;
    }
    if row in data {
      var i :| 0 <= i < |data| && data[i] == row;
    }
    FilterIsSubsequence(data, row => OnDate(row, selectedDate));
  }

  /** The text before the first space of a date followed by a time (or by nothing). */
  lemma {:induction false} DatePart(date: string, rest: string)
    requires ' ' !in date
    requires rest == [] || rest[0] == ' '
    ensures Split(date + rest, ' ')[0] == date
  {
    if rest == [] {
      assert date + rest == date;
      SplitNoSeparator(date, ' ');
    } else {
      assert date + rest == date + [' '] + rest[1..];
      SplitAtFirst(date, ' ', rest[1..]);
    }
  }

  /** Replacing a character distributes over concatenation. */
  lemma ReplaceAllAppend(a: string, b: string, from: char, to: char)
    ensures ReplaceAll(a + b, from, to) == ReplaceAll(a, from, to) + ReplaceAll(b, from, to)
  {
  }

  /** A part of a date: no separator and no space inside. */
  predicate IsDateField(p: string)
  {
    '-' !in p && '/' !in p && ' ' !in p
  }

  /** Replacing a character that does not occur changes nothing. */
  lemma ReplaceAllAbsent(s: string, from: char, to: char)
    requires from !in s
    ensures ReplaceAll(s, from, to) == s
  {
  }

  /** Three pieces joined by '-'. */
  lemma JoinThree(p0: string, p1: string, p2: string)
    ensures Join([p0, p1, p2], '-') == p0 + ['-'] + p1 + ['-'] + p2
  {
    assert [p0, p1, p2][1..] == [p1, p2];
    assert [p1, p2][1..] == [p2];
    assert Join([p1, p2], '-') == p1 + ['-'] + p2;
  }

  /** A date of three parts joined by '-' or '/' splits into those three parts. */
  lemma DateFields(p0: string, s1: char, p1: string, s2: char, p2: string)
    requires s1 in "-/" && s2 in "-/"
    requires IsDateField(p0) && IsDateField(p1) && IsDateField(p2)
    ensures Split(ReplaceAll(p0 + [s1] + p1 + [s2] + p2, '/', '-'), '-') == [p0, p1, p2]
  {
    var date := p0 + [s1] + p1 + [s2] + p2;
    ReplaceAllAppend(p0 + [s1] + p1 + [s2], p2, '/', '-');
    ReplaceAllAppend(p0 + [s1] + p1, [s2], '/', '-');
    ReplaceAllAppend(p0 + [s1], p1, '/', '-');
    ReplaceAllAppend(p0, [s1], '/', '-');
    ReplaceAllAbsent(p0, '/', '-');
    ReplaceAllAbsent(p1, '/', '-');
    ReplaceAllAbsent(p2, '/', '-');
    assert ReplaceAll([s1], '/', '-') == ['-'];
    assert ReplaceAll([s2], '/', '-') == ['-'];
    JoinThree(p0, p1, p2);
    SplitJoin([p0, p1, p2], '-');
  }

  /** A year-first date, written with '-' or '/' and possibly followed by a time, is keyed
      by its year, month and day, the month and day padded to two characters. */
  lemma DateKeyYearFirst(year: string, s1: char, month: string, s2: char, day: string, rest: string)
    requires |year| == 4
    requires s1 in "-/" && s2 in "-/"
    requires IsDateField(year) && IsDateField(month) && IsDateField(day)
    requires rest == [] || rest[0] == ' '
    ensures DateKey(year + [s1] + month + [s2] + day + rest) == year + "-" + Pad(Some(month)) + "-" + Pad(Some(day))
  {
    var date := year + [s1] + month + [s2] + day;
    assert ' ' !in date;
    DatePart(date, rest);
    DateFields(year, s1, month, s2, day);
  }

  /** A day-first date (its first part not four characters long) is keyed the same way,
      the year taken from its last part. */
  lemma DateKeyDayFirst(day: string, s1: char, month: string, s2: char, year: string, rest: string)
    requires |day| != 4
    requires s1 in "-/" && s2 in "-/"
    requires IsDateField(year) && IsDateField(month) && IsDateField(day)
    requires rest == [] || rest[0] == ' '
    ensures DateKey(day + [s1] + month + [s2] + year + rest) == year + "-" + Pad(Some(month)) + "-" + Pad(Some(day))
  {
    var date := day + [s1] + month + [s2] + year;
    assert ' ' !in date;
    DatePart(date, rest);
    DateFields(day, s1, month, s2, year);
  }

  /** The same day written year-first or day-first gets the same key. */
  lemma BothOrdersAgree(year: string, month: string, day: string, s1: char, s2: char, rest: string)
    requires |year| == 4 && |day| != 4
    requires s1 in "-/" && s2 in "-/"
    requires IsDateField(year) && IsDateField(month) && IsDateField(day)
    requires rest == [] || rest[0] == ' '
    ensures DateKey(year + [s1] + month + [s2] + day + rest) == DateKey(day + [s1] + month + [s2] + year + rest)
  {
    DateKeyYearFirst(year, s1, month, s2, day, rest);
    DateKeyDayFirst(day, s1, month, s2, year, rest);
  }

  /** A date in the form the date picker produces (four-digit year, two-digit month and day)
      is its own key, so such a pick-up date shows exactly on that date. */
  lemma IsoDateIsItsOwnKey(year: string, month: string, day: string)
    requires |year| == 4 && |month| == 2 && |day| == 2
    requires IsDateField(year) && IsDateField(month) && IsDateField(day)
    ensures DateKey(year + "-" + month + "-" + day) == year + "-" + month + "-" + day
  {
    assert year + "-" + month + "-" + day == year + ['-'] + month + ['-'] + day + [];
    DateKeyYearFirst(year, '-', month, '-', day, []);
  }

  /** A day-first date with a time of day: "5/1/2024 10:30" is keyed "2024-01-05". */
  lemma SlashDateWithTime(raw: string)
    requires raw == "5/1/2024 10:30"
    ensures DateKey(raw) == "2024-01-05"
  {
    SlashDateLayout();
    DateKeyDayFirst("5", '/', "1", '/', "2024", " 10:30");
    SlashDateKey();
  }

  /** A booking picked up at "5/1/2024 10:30" is listed on 2024-01-05. */
  lemma SlashDateIsOnItsDay()
    ensures OnDate(map[PickUpDate := "5/1/2024 10:30"], "2024-01-05")
  {
    SlashDateWithTime("5/1/2024 10:30");
  }

  /** The key assembled from the pieces of "5/1/2024 10:30". */
  lemma SlashDateKey()
    ensures "2024" + "-" + Pad(Some("1")) + "-" + Pad(Some("5")) == "2024-01-05"
  {
    PadOneDigit('1');
    PadOneDigit('5');
  }

  /** The pieces of "5/1/2024 10:30". */
  lemma SlashDateLayout()
    ensures "5/1/2024 10:30" == "5" + ['/'] + "1" + ['/'] + "2024" + " 10:30"
    ensures IsDateField("5") && IsDateField("1") && IsDateField("2024")
  {
  }

  /** A one-digit part is padded with a leading zero. */
  lemma PadOneDigit(c: char)
    ensures Pad(Some([c])) == ['0', c]
  {
  }

  /** `!booking || isNaN(Number(booking))` fails: the row has a numeric, non-empty booking. */
  function IsCountedBooking(row: Row): (b: bool)
    ensures b ==> BookingNumber in row && row[BookingNumber] != "" && IsNumeric(row[BookingNumber])
  {
    var booking := FieldOr(row, BookingNumber);
    booking != "" && IsNumeric(booking)
  }

  /** The report counts exactly the bookings the dashboard's analytics count as Invygo
      bookings, although only the dashboard lower-cases the booking first. */
  lemma CountedIsInvygo(row: Row)
    ensures IsCountedBooking(row) <==> CarSearch.BookingCategory(row) == CarSearch.Numeric
  {
    NumericIgnoresCase(FieldOr(row, BookingNumber));
  }

  /** The model a counted row is tallied under: its model, or `Unspecified` when it has
      none, and `TiggoModel` for any model naming the Tiggo 4 Pro. */
  function ModelBucket(row: Row): (bucket: string)
    ensures bucket != ""
    ensures bucket == TiggoModel || bucket == ModelName(row)
  {
    var model := ModelName(row);
    if Contains(ToLower(model), TiggoProMarker) then TiggoModel else model
  }

  /** `row["Model"] || Unspecified`: never empty. */
  function ModelName(row: Row): (name: string)
    ensures name != ""
    ensures Truthy(Lookup(row, ModelColumn)) ==> name == row[ModelColumn]
  {
    if Truthy(Lookup(row, ModelColumn)) then row[ModelColumn] else Unspecified
  }

  /** The buckets of the counted rows, in order. */
  function ModelKeys(rows: seq<Row>): (keys: seq<string>)
    ensures |keys| == Count(rows, IsCountedBooking)
  {
    if rows == [] then []
    else
      var init, row := rows[..|rows| - 1], rows[|rows| - 1];
      assert rows == init + [row];
      CountSnoc(init, row, IsCountedBooking);
      ModelKeys(init) + (if IsCountedBooking(row) then [ModelBucket(row)] else [])
  }

  /** One more row adds its bucket when it is counted. */
  lemma ModelKeysSnoc(rows: seq<Row>, row: Row)
    ensures ModelKeys(rows + [row]) == ModelKeys(rows) + (if IsCountedBooking(row) then [ModelBucket(row)] else [])
  {
    LastSplit(rows, row);
  }

  /** One more row bumps the bucket of its model when it is counted. */
  lemma CarCountStep(rows: seq<Row>, row: Row)
    ensures Tally(ModelKeys(rows + [row])) ==
            if IsCountedBooking(row) then Bump(Tally(ModelKeys(rows)), ModelBucket(row)) else Tally(ModelKeys(rows))
  {
    ModelKeysSnoc(rows, row);
    var keys, next := ModelKeys(rows), ModelKeys(rows + [row]);
    if IsCountedBooking(row) {
      var bucket := ModelBucket(row);
      assert next == keys + [bucket];
      TallySnoc(keys, bucket);
    } else {
      assert next == keys;
    }
  }

  /** The number of counted rows tallied under `model`. */
  function ModelCount(rows: seq<Row>, model: string): nat
  {
    Count(rows, row => IsCountedBooking(row) && ModelBucket(row) == model)
  }

  /** Each bucket of the tally holds the number of counted rows of that model. */
  lemma {:induction false} ModelKeysCount(rows: seq<Row>, model: string)
    ensures multiset(ModelKeys(rows))[model] == ModelCount(rows, model)
    decreases |rows|
  {
    if rows != [] {
      var init, row := rows[..|rows| - 1], rows[|rows| - 1];
      assert rows == init + [row];
      ModelKeysCount(init, model);
      CountSnoc(init, row, row => IsCountedBooking(row) && ModelBucket(row) == model);
    }
  }

  /** `allCarCount`: walk the data and bump the bucket of every counted row. */
  method AllCarCount(data: seq<Row>) returns (grouped: map<string, nat>)
    ensures grouped == Tally(ModelKeys(data))
    ensures forall model :: model in grouped <==> ModelCount(data, model) > 0
    ensures forall model | model in grouped :: grouped[model] == ModelCount(data, model)
    ensures SumValues(grouped) == Count(data, IsCountedBooking)
  {
    grouped := map[];
    for i := 0 to |data|
      invariant grouped == Tally(ModelKeys(data[..i]))
    {
      var row := data[i];
      TakeOneMore(data, i);
      var booking := FieldOr(row, BookingNumber);
      if booking != "" && IsNumeric(booking) {
        var model := ModelName(row);
        if Contains(ToLower(model), TiggoProMarker) {
          model := TiggoModel;
        }
        grouped := Bump(grouped, model);
      }
      CarCountStep(data[..i], row);
    }
    assert data[..|data|] == data;
    TallyOfModels(data);
  }

  /** The tally of the buckets counts, per model, the counted rows of that model, and its
      values add up to the number of counted rows. */
  lemma TallyOfModels(data: seq<Row>)
    ensures forall model :: model in Tally(ModelKeys(data)) <==> ModelCount(data, model) > 0
    ensures forall model | model in Tally(ModelKeys(data)) :: Tally(ModelKeys(data))[model] == ModelCount(data, model)
    ensures SumValues(Tally(ModelKeys(data))) == Count(data, IsCountedBooking)
  {
    forall model ensures multiset(ModelKeys(data))[model] == ModelCount(data, model) {
      ModelKeysCount(data, model);
    }
    SumValuesTally(ModelKeys(data));
  }

  /** "tiggo 4 2025" does not contain "tiggo 4 pro": the two differ at their ninth character
      and the marker cannot start later. */
  lemma TiggoModelLacksMarker()
    ensures !Contains(ToLower(TiggoModel), TiggoProMarker)
  {
    var lower := ToLower(TiggoModel);
    assert lower == "tiggo 4 2025";
    forall i: nat | i <= |lower| - |TiggoProMarker|
      ensures !OccursAt(lower, TiggoProMarker, i)
    {
      assert i <= 1;
      assert lower[i + 8] != TiggoProMarker[8];
    }
  }

  /** Every Tiggo 4 Pro variant lands in one bucket, any other model is tallied under its
      own name as written, and no bucket names the marker, so re-bucketing a bucket name
      changes nothing. */
  lemma BucketsAreCanonical(row: Row)
    ensures Contains(ToLower(FieldOr(row, ModelColumn)), TiggoProMarker) ==> ModelBucket(row) == TiggoModel
    ensures !Contains(ToLower(ModelName(row)), TiggoProMarker) ==> ModelBucket(row) == ModelName(row)
    ensures ModelBucket(map[ModelColumn := ModelBucket(row)]) == ModelBucket(row)
  {
    TiggoModelLacksMarker();
  }

  /** A counted row without a model is tallied under `Unspecified`, which is shorter than
      the marker and so is never renamed. */
  lemma UnnamedModelIsUnspecified(row: Row)
    requires !Truthy(Lookup(row, ModelColumn))
    ensures ModelBucket(row) == Unspecified
  {
    assert |ToLower(Unspecified)| < |TiggoProMarker|;
  }

  /** The report's own state: the loaded rows and the selected date. */
  class DailyBookingReport {
    var data: seq<Row>
    var selectedDate: string

    /** No rows yet; the date selected is `today`, the ISO date of the clock at start-up. */
    constructor (today: string)
      ensures data == [] && selectedDate == today
    {
      data := [];
      selectedDate := today;
    }

    /** The sheet arrives: on success its records replace the data; a failure is only logged. */
    method LoadReport(text: string)
      modifies this`data
      ensures ParseSheet(text).Success? ==> data == ParseSheet(text).value
      ensures ParseSheet(text).Failure? ==> data == old(data)
    {
      var parsed := ParseSheet(text);
      if parsed.Success? {
        data := parsed.value;
      }
    }

    /** The date picker's change handler. */
    method SelectDate(date: string)
      modifies this`selectedDate
      ensures selectedDate == date
    {
      selectedDate := date;
    }
  }
}
