/*
 * The /api/analyze endpoint: one simulated probability per requested
 * condition, a details sentence for each, and a historical series whose
 * shape follows the requested time range.
 *
 * The random number generator is an oracle: draws(k) is the raw value of
 * the k-th call to the generator, and RandInt maps it into the range asked
 * for. The endpoint consumes draws in program order: one per condition,
 * then the temperatures, then the precipitations.
 */
module Analysis {
  import opened Wrappers
  import opened Decimal
  import opened Calendar

  /** The fields of the request body as `data.get` reads them; None stands for an absent key or a JSON null. */
  datatype Request = Request(
    location: Option<string>,
    date: Option<string>,
    timeRange: Option<string>,
    conditions: seq<string>)

  datatype ConditionResult = ConditionResult(condition: string, labelText: string, probability: int, details: string)

  /** Precipitation is kept in hundredths of an inch: round(x, 2) for x in [0, 3]. */
  datatype HistoricalData = HistoricalData(labels: seq<string>, temperature: seq<int>, precipitation: seq<nat>)

  datatype Metadata = Metadata(generatedAt: string, dataQuality: string, confidence: string)

  datatype Report = Report(
    location: Option<string>,
    date: Option<string>,
    timeRange: Option<string>,
    probabilities: seq<ConditionResult>,
    historicalData: HistoricalData,
    dataSources: seq<string>,
    metadata: Metadata)

  /** Why report generation raises: no date (TypeError), a date strptime rejects (ValueError), a week running past 9999-12-31 (OverflowError). */
  datatype GenerationError = DateMissing | DateUnparseable | DateOutOfRange

  const DataSources: seq<string> := ["NASA GES DISC", "Giovanni", "Worldview", "Earthdata Search"]

  // ---- random draws ----

  /** random.randint(lo, hi) given the generator's raw output. */
  function RandInt(lo: int, hi: int, raw: int): (r: int)
    requires lo <= hi
    ensures lo <= r <= hi
  {
    lo + raw % (hi - lo + 1)
  }

  /** Every value of the range is drawn by some raw output. */
  lemma RandIntReaches(lo: int, hi: int, v: int)
    requires lo <= v <= hi
    ensures RandInt(lo, hi, v - lo) == v
  {
  }

  function Probability(raw: int): (p: int)
    ensures 15 <= p <= 85
  {
    RandInt(15, 85, raw)
  }

  function Temperature(raw: int): (t: int)
    ensures 40 <= t <= 95
  {
    RandInt(40, 95, raw)
  }

  /** round(random.uniform(0, 3), 2), in hundredths. */
  function Precipitation(raw: int): (h: nat)
    ensures h <= 300
  {
    RandInt(0, 300, raw)
  }

  // ---- labels and details ----

  const ConditionLabels: map<string, string> :=
    map["hot" := "Very Hot", "cold" := "Very Cold", "windy" := "Very Windy",
        "wet" := "Very Wet", "uncomfortable" := "Very Uncomfortable"]

  /** condition_labels.get(condition, condition). */
  function ConditionLabel(condition: string): (text: string)
    ensures condition in ConditionLabels ==> text == ConditionLabels[condition]
    ensures text == condition <==> condition !in ConditionLabels
  {
    if condition in ConditionLabels then ConditionLabels[condition] else condition
  }

  /**
   * Every details sentence reads before + str(probability) + "%" + after:
   * the number is followed by a percent sign in all six templates.
   */
  datatype Template = Template(before: string, after: string)

  /** The details_map entries; any other tag takes the generic template. */
  function TemplateFor(condition: string): (t: Template)
    ensures condition !in {"hot", "cold", "windy", "wet", "uncomfortable"} ==> t == GenericTemplate
  {
    if condition == "hot" then
      Template("Based on ", " historical occurrence of temperatures exceeding 90¬∞F. Heat index may reach dangerous levels.")
    else if condition == "cold" then
      Template("Historical data shows ", " probability of temperatures below 32¬∞F. Frost and ice conditions likely.")
    else if condition == "windy" then
      Template("", " chance of sustained winds exceeding 25 mph. May affect outdoor activities significantly.")
    else if condition == "wet" then
      Template("Precipitation probability of ", " with potential for over 1 inch of rainfall. Plan for wet conditions.")
    else if condition == "uncomfortable" then
      Template("", " likelihood of high humidity (>70%) combined with temperature. Heat index will feel higher.")
    else
      GenericTemplate
  }

  const GenericTemplate := Template("", " probability based on historical data")

  /** The f-string: the template with the probability substituted. */
  function Fill(t: Template, probability: int): string
  {
    t.before + IntToString(probability) + "%" + t.after
  }

  /** generate_condition_details: the date argument is accepted and not used. */
  function ConditionDetails(condition: string, probability: int, date: Option<string>): (details: string)
    ensures var t := TemplateFor(condition);
      |t.before| <= |details| && details[..|t.before|] == t.before &&
      ReadInt(details[|t.before|..]) == Some((probability, "%" + t.after))
  {
    FillReadBack(TemplateFor(condition), probability);
    Fill(TemplateFor(condition), probability)
  }

  /** The probability reads back from the slot after the template's opening words, followed by the rest of the template. */
  lemma FillReadBack(t: Template, probability: int)
    ensures |t.before| <= |Fill(t, probability)|
    ensures Fill(t, probability)[..|t.before|] == t.before
    ensures ReadInt(Fill(t, probability)[|t.before|..]) == Some((probability, "%" + t.after))
  {
    var s := Fill(t, probability);
    assert s == t.before + (IntToString(probability) + ("%" + t.after));
    ReadIntRoundTrip(probability, "%" + t.after);
  }

  /** For one condition, the details sentence changes exactly when the probability does; the date never matters. */
  lemma DetailsDetermineProbability(condition: string, p1: int, d1: Option<string>, p2: int, d2: Option<string>)
    ensures ConditionDetails(condition, p1, d1) == ConditionDetails(condition, p2, d2) <==> p1 == p2
  {
    if ConditionDetails(condition, p1, d1) == ConditionDetails(condition, p2, d2) {
      FillReadBack(TemplateFor(condition), p1);
      FillReadBack(TemplateFor(condition), p2);
    }
  }

  /** A tag outside the five known ones gets the generic sentence. */
  lemma UnknownConditionDetails(condition: string, probability: int, date: Option<string>)
    requires condition !in {"hot", "cold", "windy", "wet", "uncomfortable"}
    ensures ConditionDetails(condition, probability, date) == IntToString(probability) + "%" + GenericTemplate.after
  {
  }

  /** The entry the condition loop appends for one tag and one drawn probability. */
  function ConditionResultFor(condition: string, probability: int, date: Option<string>): ConditionResult
  {
    ConditionResult(condition, ConditionLabel(condition), probability, ConditionDetails(condition, probability, date))
  }

  // ---- historical series ----

  datatype TimeRange = Day | Week | Month | Season

  /** The if/elif chain on time_range: anything but "day", "week" or "month", a missing value included, is a season. */
  function Bucket(timeRange: Option<string>): (b: TimeRange)
    ensures b == Day <==> timeRange == Some("day")
    ensures b == Week <==> timeRange == Some("week")
    ensures b == Month <==> timeRange == Some("month")
  {
    match timeRange
    case Some(s) =>
      if s == "day" then Day
      else if s == "week" then Week
      else if s == "month" then Month
      else Season
    case None => Season
  }

  function PointCount(b: TimeRange): (n: nat)
    ensures 3 <= n <= 8
  {
    match b
    case Day => 8
    case Week => 7
    case Month => 4
    case Season => 3
  }

  /** "0:00", "3:00", ..., "21:00". */
  function DayLabels(): (labels: seq<string>)
    ensures |labels| == 8
  {
    seq(8, i requires 0 <= i < 8 => NatToString(3 * i) + ":00")
  }

  /** "Week 1" .. "Week 4". */
  function MonthLabels(): (labels: seq<string>)
    ensures |labels| == 4
  {
    seq(4, i requires 0 <= i < 4 => "Week " + NatToString(i + 1))
  }

  const SeasonLabels: seq<string> := ["Month 1", "Month 2", "Month 3"]

  /** The day labels are these eight texts exactly, with no zero padding. */
  lemma DayLabelsText()
    ensures DayLabels() == ["0:00", "3:00", "6:00", "9:00", "12:00", "15:00", "18:00", "21:00"]
  {
    assert NatToString(12) == NatToString(1) + [DigitChar(2)];
    assert NatToString(15) == NatToString(1) + [DigitChar(5)];
    assert NatToString(18) == NatToString(1) + [DigitChar(8)];
    assert NatToString(21) == NatToString(2) + [DigitChar(1)];
    var texts := ["0:00", "3:00", "6:00", "9:00", "12:00", "15:00", "18:00", "21:00"];
    forall i | 0 <= i < 8
      ensures DayLabels()[i] == texts[i]
    {
    }
  }

  /** Day label i reads back as hour 3i followed by ":00". */
  lemma DayLabelsHours()
    ensures |DayLabels()| == 8
    ensures forall i :: 0 <= i < 8 ==> ReadNat(DayLabels()[i]) == Some((3 * i, ":00"))
  {
    forall i | 0 <= i < 8
      ensures ReadNat(DayLabels()[i]) == Some((3 * i, ":00"))
    {
      ReadNatRoundTrip(3 * i, ":00");
    }
  }

  /** Month label i is "Week " followed by the number i + 1 and nothing else, written without padding. */
  lemma MonthLabelsWeeks()
    ensures |MonthLabels()| == 4
    ensures forall i :: 0 <= i < 4 ==> MonthLabels()[i][..5] == "Week " && ReadNat(MonthLabels()[i][5..]) == Some((i + 1, ""))
    ensures MonthLabels() == ["Week 1", "Week 2", "Week 3", "Week 4"]
  {
    var texts := ["Week 1", "Week 2", "Week 3", "Week 4"];
    forall i | 0 <= i < 4
      ensures MonthLabels()[i] == texts[i]
    {
    }
    forall i | 0 <= i < 4
      ensures MonthLabels()[i][..5] == "Week " && ReadNat(MonthLabels()[i][5..]) == Some((i + 1, ""))
    {
      assert MonthLabels()[i][5..] == NatToString(i + 1) + "";
      ReadNatRoundTrip(i + 1, "");
    }
  }

  /** The labels of a bucket; None when a week runs past the last date. */
  function SeriesLabels(b: TimeRange, target: Date): (r: Option<seq<string>>)
    requires ValidDate(target)
    ensures r.Some? <==> b != Week || Ordinal(target) + 6 <= MaxOrdinal
    ensures r.Some? ==> |r.value| == PointCount(b)
  {
    match b
    case Day => Some(DayLabels())
    case Week => WeekLabels(target)
    case Month => Some(MonthLabels())
    case Season => Some(SeasonLabels)
  }

  /** n temperatures from the draws at from, from + 1, ... */
  function TemperatureSeries(draws: nat -> int, from: nat, n: nat): (s: seq<int>)
    ensures |s| == n && forall i :: 0 <= i < n ==> 40 <= s[i] <= 95
  {
    if n == 0 then [] else TemperatureSeries(draws, from, n - 1) + [Temperature(draws(from + n - 1))]
  }

  /** n precipitations, in hundredths, from the draws at from, from + 1, ... */
  function PrecipitationSeries(draws: nat -> int, from: nat, n: nat): (s: seq<nat>)
    ensures |s| == n && forall i :: 0 <= i < n ==> s[i] <= 300
  {
    if n == 0 then [] else PrecipitationSeries(draws, from, n - 1) + [Precipitation(draws(from + n - 1))]
  }

  /**
   * generate_historical_data with the first raw draw at index start: the
   * series and the index of the next unused draw.
   */
  function GenerateHistoricalData(date: Option<string>, timeRange: Option<string>, draws: nat -> int, start: nat)
    : (r: Result<(HistoricalData, nat), GenerationError>)
    ensures r.Success? ==>
      var (h, next) := r.value;
      var n := PointCount(Bucket(timeRange));
      |h.labels| == n && |h.temperature| == n && |h.precipitation| == n && next == start + 2 * n &&
      (forall i :: 0 <= i < n ==> 40 <= h.temperature[i] <= 95 && h.precipitation[i] <= 300)
  {
    if date.None? then Failure(DateMissing)
    else
      match ParseDate(date.value)
      case None => Failure(DateUnparseable)
      case Some(target) =>
        var b := Bucket(timeRange);
        match SeriesLabels(b, target)
        case None => Failure(DateOutOfRange)
        case Some(labels) =>
          var n := PointCount(b);
          var h := HistoricalData(labels, TemperatureSeries(draws, start, n), PrecipitationSeries(draws, start + n, n));
          Success((h, start + 2 * n))
  }

  /**
   * Generation fails exactly when the date is missing, does not parse, or
   * (for a week) has fewer than six days after it; the error names which.
   */
  lemma HistoricalDataOutcome(date: Option<string>, timeRange: Option<string>, draws: nat -> int, start: nat)
    ensures var r := GenerateHistoricalData(date, timeRange, draws, start);
      (r.Success? <==>
        date.Some? && ParseDate(date.value).Some? &&
        (Bucket(timeRange) == Week ==> Ordinal(ParseDate(date.value).value) + 6 <= MaxOrdinal)) &&
      (r.Failure? ==>
        r.error == (if date.None? then DateMissing else if ParseDate(date.value).None? then DateUnparseable else DateOutOfRange))
  {
  }

  /** The series' labels are the bucket's scheme, the temperatures come first in draw order, then the precipitations. */
  lemma HistoricalDataShape(date: Option<string>, timeRange: Option<string>, draws: nat -> int, start: nat)
    requires GenerateHistoricalData(date, timeRange, draws, start).Success?
    ensures date.Some? && ParseDate(date.value).Some?
    ensures var h := GenerateHistoricalData(date, timeRange, draws, start).value.0;
      var n := PointCount(Bucket(timeRange));
      SeriesLabels(Bucket(timeRange), ParseDate(date.value).value) == Some(h.labels) &&
      (forall i :: 0 <= i < n ==> h.temperature[i] == Temperature(draws(start + i))) &&
      (forall i :: 0 <= i < n ==> h.precipitation[i] == Precipitation(draws(start + n + i)))
  {
    var n := PointCount(Bucket(timeRange));
    HistoricalDataSuccess(date, timeRange, draws, start);
    TemperatureDraws(draws, start, n);
    PrecipitationDraws(draws, start + n, n);
  }

  /** A proof helper: the series generation returns on success. */
  lemma HistoricalDataSuccess(date: Option<string>, timeRange: Option<string>, draws: nat -> int, start: nat)
    requires GenerateHistoricalData(date, timeRange, draws, start).Success?
    ensures date.Some? && ParseDate(date.value).Some?
    ensures var n := PointCount(Bucket(timeRange));
      SeriesLabels(Bucket(timeRange), ParseDate(date.value).value).Some? &&
      GenerateHistoricalData(date, timeRange, draws, start).value.0 ==
        HistoricalData(SeriesLabels(Bucket(timeRange), ParseDate(date.value).value).value,
          TemperatureSeries(draws, start, n), PrecipitationSeries(draws, start + n, n))
  {
  }

  /** Temperature i comes from the draw at from + i. */
  lemma {:induction false} TemperatureDraws(draws: nat -> int, from: nat, n: nat)
    ensures forall i :: 0 <= i < n ==> TemperatureSeries(draws, from, n)[i] == Temperature(draws(from + i))
  {
    if n > 0 {
      TemperatureDraws(draws, from, n - 1);
    }
  }

  /** Precipitation i comes from the draw at from + i. */
  lemma {:induction false} PrecipitationDraws(draws: nat -> int, from: nat, n: nat)
    ensures forall i :: 0 <= i < n ==> PrecipitationSeries(draws, from, n)[i] == Precipitation(draws(from + i))
  {
    if n > 0 {
      PrecipitationDraws(draws, from, n - 1);
    }
  }

  /** Week labels are seven different, successive weekday abbreviations, the first naming the date itself. */
  lemma WeekSeries(date: string, draws: nat -> int, start: nat)
    requires GenerateHistoricalData(Some(date), Some("week"), draws, start).Success?
    ensures var labels := GenerateHistoricalData(Some(date), Some("week"), draws, start).value.0.labels;
      var target := ParseDate(date).value;
      |labels| == 7 && labels[0] == WeekdayNames[Weekday(target)] &&
      (forall i :: 0 <= i < 6 ==> labels[i] in FollowingWeekday && labels[i + 1] == FollowingWeekday[labels[i]]) &&
      (forall i, j :: 0 <= i < j < 7 ==> labels[i] != labels[j])
  {
    var target := ParseDate(date).value;
    HistoricalDataShape(Some(date), Some("week"), draws, start);
    WeekLabelsSuccessive(target);
    WeekLabelsDistinct(target);
    WeekLabelNamesDay(target, 0);
  }

  // ---- the endpoint ----

  /**
   * The condition loop of analyze_weather: one entry per tag, in order,
   * duplicates kept, the i-th probability from the draw at start + i.
   */
  method EvaluateConditions(conditions: seq<string>, date: Option<string>, draws: nat -> int, start: nat)
    returns (probabilities: seq<ConditionResult>)
    ensures |probabilities| == |conditions|
    ensures forall i :: 0 <= i < |conditions| ==>
      probabilities[i].condition == conditions[i] &&
      15 <= probabilities[i].probability <= 85 &&
      probabilities[i] == ConditionResultFor(conditions[i], Probability(draws(start + i)), date)
  {
    probabilities := [];
    var k := 0;
    while k < |conditions|
      invariant 0 <= k <= |conditions| && |probabilities| == k
      invariant forall i :: 0 <= i < k ==>
        probabilities[i] == ConditionResultFor(conditions[i], Probability(draws(start + i)), date)
    {
      var condition := conditions[k];
      var probability := Probability(draws(start + k));
      probabilities := probabilities + [ConditionResultFor(condition, probability, date)];
      k := k + 1;
    }
  }

  /**
   * analyze_weather: the condition loop draws one probability per tag, then
   * the historical series is generated from the following draws. now is the
   * datetime.now().isoformat() text. next is the index of the first draw
   * left unused; a failing date has already cost the condition draws.
   */
  method AnalyzeWeather(request: Request, draws: nat -> int, start: nat, now: string)
    returns (result: Result<Report, GenerationError>, next: nat)
    ensures var history := GenerateHistoricalData(request.date, request.timeRange, draws, start + |request.conditions|);
      (result.Success? <==> history.Success?) &&
      (result.Failure? ==> result.error == history.error && next == start + |request.conditions|) &&
      (result.Success? ==> result.value.historicalData == history.value.0 && next == history.value.1)
    ensures result.Success? ==>
      var report := result.value;
      report.location == request.location && report.date == request.date && report.timeRange == request.timeRange &&
      report.dataSources == DataSources && report.metadata == Metadata(now, "High", "85%") &&
      |report.probabilities| == |request.conditions| &&
      forall i :: 0 <= i < |request.conditions| ==>
        report.probabilities[i].condition == request.conditions[i] &&
        15 <= report.probabilities[i].probability <= 85 &&
        report.probabilities[i] == ConditionResultFor(request.conditions[i], Probability(draws(start + i)), request.date)
  {
    var probabilities := EvaluateConditions(request.conditions, request.date, draws, start);
    var history := GenerateHistoricalData(request.date, request.timeRange, draws, start + |request.conditions|);
    if history.Failure? {
      return Failure(history.error), start + |request.conditions|;
    }
    var (historicalData, after) := history.value;
    var report := Report(request.location, request.date, request.timeRange, probabilities, historicalData,
                         DataSources, Metadata(now, "High", "85%"));
    return Success(report), after;
  }
}
