/**
 The message list: getMessages turns a set of optional filters into one query, and
 applyDateFilters adds the date filters to it. The results say which rows the built query
 selects: those that every filter by itself asks for, except when module and modules are given
 together, which share one parameter name; and which filters make the database refuse it.
 */
module MessageQuery {
  import opened Wrappers
  import opened QueryBuilder

  /** The date filters, with dates already parsed. An absent or empty filter is None. */
  datatype DateFilters = DateFilters(
    dateFrom: Option<int>, dateTo: Option<int>, dateExact: Option<(int, int)>,
    year: Option<int>, month: Option<int>, day: Option<int>, dayOfWeek: Option<int>,
    hour: Option<int>, minute: Option<int>, second: Option<int>,
    timeFrom: Option<int>, timeTo: Option<int>, relativeDate: Option<int>, businessDaysOnly: bool,
    weekdays: Option<seq<int>>, months: Option<seq<int>>, years: Option<seq<int>>, quarters: Option<seq<int>>,
    season: Option<string>, fiscalYear: Option<(int, int)>, fiscalQuarter: Option<int>, leapYearsOnly: bool,
    customRanges: Option<seq<Option<int>>>, offsetDate: Option<int>, validDatesOnly: bool)

  /**
   The message filters. moduleTypes and categoryTypes are the lists that the parser service
   gives for the filter; an empty list is not applied.
   */
  datatype Filters = Filters(
    msgType: Option<string>, types: seq<string>, moduleTypes: seq<string>, modulesTypes: seq<string>,
    categoryTypes: seq<string>, address: Option<string>, heightFrom: Option<int>, heightTo: Option<int>,
    denom: Option<string>, dates: DateFilters, cursor: Option<int>)

  /** getSeasonMonths, of a name in lower case. */
  function SeasonMonths(season: string): seq<int> {
    if season == "spring" then [3, 4, 5]
    else if season == "summer" then [6, 7, 8]
    else if season == "fall" || season == "autumn" then [9, 10, 11]
    else if season == "winter" then [12, 1, 2]
    else []
  }

  /** getFiscalQuarterMonths; the fiscal year starts in April. */
  function FiscalQuarterMonths(quarter: int): seq<int> {
    if 1 <= quarter <= 3 then [3 * quarter + 1, 3 * quarter + 2, 3 * quarter + 3]
    else if quarter == 4 then [1, 2, 3]
    else []
  }

  /** The pairs of a comma-separated list of dates; a pair with an invalid date is dropped. */
  function Ranges(dates: seq<Option<int>>): seq<(int, int)> {
    if |dates| < 2 then []
    else (if dates[0].Some? && dates[1].Some? then [(dates[0].value, dates[1].value)] else []) + Ranges(dates[2..])
  }

  method ParseCustomRanges(dates: seq<Option<int>>) returns (ranges: seq<(int, int)>)
    ensures ranges == Ranges(dates)
  {
    ranges := [];
    var i := 0;
    while i < |dates|
      invariant 0 <= i
      invariant i <= |dates| ==> ranges + Ranges(dates[i..]) == Ranges(dates)
      invariant i > |dates| ==> ranges == Ranges(dates)
    {
      if i + 1 < |dates| {
        assert dates[i..][2..] == dates[i + 2..];
        if dates[i].Some? && dates[i + 1].Some? {
          ranges := ranges + [(dates[i].value, dates[i + 1].value)];
        }
      }
      i := i + 2;
    }
  }

  function DenomPattern(denom: string): string {
    "%\"denom\":\"" + denom + "\"%"
  }

  // ---- The calls of andWhere ----------------------------------------------------------------

  function Number(x: Option<int>, c: Column, o: Order, p: FixedName): Option<Step> {
    if x.Some? then Some(CompareStep(c, o, p, x.value)) else None
  }

  function Start(x: Option<(int, int)>): Option<int> {
    if x.Some? then Some(x.value.0) else None
  }

  function End(x: Option<(int, int)>): Option<int> {
    if x.Some? then Some(x.value.1) else None
  }

  function Among(xs: Option<seq<int>>, c: Column, p: FixedName): Option<Step> {
    if xs.Some? then Some(OneOfStep(c, p, xs.value)) else None
  }

  function AmongTypes(types: seq<string>, p: FixedName): Option<Step> {
    if types != [] then Some(TypeOneOfStep(p, types)) else None
  }

  datatype TextKind = IsType | IsInvolved | HasDenom

  function OfText(text: Option<string>, kind: TextKind): Option<Step> {
    if text.None? then None
    else
      match kind
      case IsType => Some(TypeStep(PType, text.value))
      case IsInvolved => Some(InvolvesStep(PAddress, text.value))
      case HasDenom => Some(LikeStep(PDenom, DenomPattern(text.value)))
  }

  function Flag(given: bool, l: Literal): Option<Step> {
    if given then Some(PlainStep(l)) else None
  }

  /** A cursor of 0 is not applied. */
  function Positive(cursor: Option<int>): Option<int> {
    if cursor == Some(0) then None else cursor
  }

  function TypeSteps(f: Filters): Plan {
    [OfText(f.msgType, IsType),
     AmongTypes(f.types, PTypes),
     AmongTypes(f.moduleTypes, PModuleTypes),
     AmongTypes(f.modulesTypes, PModuleTypes),
     AmongTypes(f.categoryTypes, PCategoryTypes)]
  }

  function RowSteps(f: Filters): Plan {
    [OfText(f.address, IsInvolved),
     Number(f.heightFrom, Height, AtLeast, PHeightFrom),
     Number(f.heightTo, Height, AtMost, PHeightTo),
     OfText(f.denom, HasDenom)]
  }

  function SpanSteps(d: DateFilters): Plan {
    [Number(d.dateFrom, Instant, AtLeast, PDateFrom),
     Number(d.dateTo, Instant, AtMost, PDateTo),
     Number(Start(d.dateExact), Instant, AtLeast, PExactDateStart),
     Number(End(d.dateExact), Instant, AtMost, PExactDateEnd)]
  }

  function PartSteps(d: DateFilters): Plan {
    [Number(d.year, Year, Equal, PYear),
     Number(d.month, Month, Equal, PMonth),
     Number(d.day, Day, Equal, PDay),
     Number(d.dayOfWeek, Dow, Equal, PDayOfWeek)]
  }

  function TimeSteps(d: DateFilters): Plan {
    [Number(d.hour, Hour, Equal, PHour),
     Number(d.minute, Minute, Equal, PMinute),
     Number(d.second, Second, Equal, PSecond),
     Number(d.timeFrom, TimeOfDay, AtLeast, PTimeFrom),
     Number(d.timeTo, TimeOfDay, AtMost, PTimeTo)]
  }

  function RelativeSteps(d: DateFilters): Plan {
    [Number(d.relativeDate, Instant, AtLeast, PRelativeDate),
     Flag(d.businessDaysOnly, NotWeekend)]
  }

  function ListSteps(d: DateFilters): Plan {
    [Among(d.weekdays, Dow, PWeekdays),
     Among(d.months, Month, PMonths),
     Among(d.years, Year, PYears),
     Among(d.quarters, Quarter, PQuarters)]
  }

  function MonthsOf(season: Option<string>): Option<seq<int>> {
    if season.Some? then Some(SeasonMonths(season.value)) else None
  }

  function MonthsIn(quarter: Option<int>): Option<seq<int>> {
    if quarter.Some? then Some(FiscalQuarterMonths(quarter.value)) else None
  }

  function FiscalSteps(d: DateFilters): Plan {
    [Among(MonthsOf(d.season), Month, PSeasonMonths),
     Number(Start(d.fiscalYear), Instant, AtLeast, PFiscalYearStart),
     Number(End(d.fiscalYear), Instant, AtMost, PFiscalYearEnd),
     Among(MonthsIn(d.fiscalQuarter), Month, PQuarterMonths)]
  }

  function CustomStep(dates: Option<seq<Option<int>>>): Option<Step> {
    if dates.Some? && Ranges(dates.value) != [] then Some(RangesStep(Ranges(dates.value))) else None
  }

  function RuleSteps(d: DateFilters): Plan {
    [Flag(d.leapYearsOnly, FourthYear),
     Flag(d.leapYearsOnly, NotPlainCentury),
     CustomStep(d.customRanges)]
  }

  function ValiditySteps(d: DateFilters): Plan {
    [Number(d.offsetDate, Instant, AtLeast, POffsetDate),
     Flag(d.validDatesOnly, NotNull),
     Flag(d.validDatesOnly, NotEpoch)]
  }

  function EarlySteps(d: DateFilters): Plan {
    SpanSteps(d) + PartSteps(d) + (TimeSteps(d) + RelativeSteps(d))
  }

  function LateSteps(d: DateFilters): Plan {
    ListSteps(d) + FiscalSteps(d) + (RuleSteps(d) + ValiditySteps(d))
  }

  /** applyDateFilters. */
  function DateSteps(d: DateFilters): Plan {
    EarlySteps(d) + LateSteps(d)
  }

  function CursorSteps(f: Filters): Plan {
    [Number(Positive(f.cursor), Height, Below, PCursor)]
  }

  /** getMessages with applyDateFilters inside. */
  function PlanOf(f: Filters): Plan {
    TypeSteps(f) + RowSteps(f) + DateSteps(f.dates) + CursorSteps(f)
  }

  // ---- Which names belong to which andWhere ----------------------------------------------

  /** The place, in PlanOf, of the first call that binds a name. */
  function Owner(n: Name): nat {
    match n
    case RangeStart(_) => 34
    case RangeEnd(_) => 34
    case Fixed(f) =>
      match f
      case PType => 0
      case PTypes => 1
      case PModuleTypes => 2
      case PCategoryTypes => 4
      case PAddress => 5
      case PHeightFrom => 6
      case PHeightTo => 7
      case PDenom => 8
      case PDateFrom => 9
      case PDateTo => 10
      case PExactDateStart => 11
      case PExactDateEnd => 12
      case PYear => 13
      case PMonth => 14
      case PDay => 15
      case PDayOfWeek => 16
      case PHour => 17
      case PMinute => 18
      case PSecond => 19
      case PTimeFrom => 20
      case PTimeTo => 21
      case PRelativeDate => 22
      case PWeekdays => 24
      case PMonths => 25
      case PYears => 26
      case PQuarters => 27
      case PSeasonMonths => 28
      case PFiscalYearStart => 29
      case PFiscalYearEnd => 30
      case PQuarterMonths => 31
      case POffsetDate => 35
      case PCursor => 38
  }

  const MODULE: nat := 2
  const MODULES: nat := 3

  /** A call binds names of its own place; only modules takes a name of another one, module's. */
  predicate Placed(k: nat, s: Step) {
    match s
    case RangesStep(_) => k == 34
    case PlainStep(_) => true
    case _ => k == Owner(Fixed(s.p)) || (k == MODULES && s.p == PModuleTypes)
  }

  ghost predicate AllPlaced(plan: Plan, from: nat) {
    forall i :: 0 <= i < |plan| && plan[i].Some? ==> Placed(from + i, plan[i].value)
  }

  lemma PlacedAppend(a: Plan, b: Plan, from: nat)
    requires AllPlaced(a, from) && AllPlaced(b, from + |a|)
    ensures AllPlaced(a + b, from)
  {
    forall i | 0 <= i < |a + b| && (a + b)[i].Some? ensures Placed(from + i, (a + b)[i].value) {
      if i >= |a| {
        assert (a + b)[i] == b[i - |a|];
        assert from + |a| + (i - |a|) == from + i;
      }
    }
  }

  lemma SpanArePlaced(d: DateFilters)
    ensures AllPlaced(SpanSteps(d) + PartSteps(d), 9)
  {
    PlacedAppend(SpanSteps(d), PartSteps(d), 9);
  }

  lemma TimesArePlaced(d: DateFilters)
    ensures AllPlaced(TimeSteps(d) + RelativeSteps(d), 17)
  {
    PlacedAppend(TimeSteps(d), RelativeSteps(d), 17);
  }

  lemma EarlyArePlaced(d: DateFilters)
    ensures AllPlaced(EarlySteps(d), 9)
  {
    SpanArePlaced(d);
    TimesArePlaced(d);
    PlacedAppend(SpanSteps(d) + PartSteps(d), TimeSteps(d) + RelativeSteps(d), 9);
  }

  lemma ListsArePlaced(d: DateFilters)
    ensures AllPlaced(ListSteps(d), 24) && |ListSteps(d)| == 4
  {
  }

  lemma FiscalsArePlaced(d: DateFilters)
    ensures AllPlaced(FiscalSteps(d), 28) && |FiscalSteps(d)| == 4
  {
  }

  lemma ListsAndFiscalsArePlaced(d: DateFilters)
    ensures AllPlaced(ListSteps(d) + FiscalSteps(d), 24)
  {
    ListsArePlaced(d);
    FiscalsArePlaced(d);
    PlacedAppend(ListSteps(d), FiscalSteps(d), 24);
  }

  lemma RulesArePlaced(d: DateFilters)
    ensures AllPlaced(RuleSteps(d) + ValiditySteps(d), 32)
  {
    PlacedAppend(RuleSteps(d), ValiditySteps(d), 32);
  }

  lemma LateArePlaced(d: DateFilters)
    ensures AllPlaced(LateSteps(d), 24)
  {
    ListsAndFiscalsArePlaced(d);
    RulesArePlaced(d);
    PlacedAppend(ListSteps(d) + FiscalSteps(d), RuleSteps(d) + ValiditySteps(d), 24);
  }

  lemma MessagesArePlaced(f: Filters)
    ensures AllPlaced(TypeSteps(f) + RowSteps(f), 0)
  {
    PlacedAppend(TypeSteps(f), RowSteps(f), 0);
  }

  lemma StepsArePlaced(f: Filters)
    ensures AllPlaced(PlanOf(f), 0)
  {
    EarlyArePlaced(f.dates);
    LateArePlaced(f.dates);
    PlacedAppend(EarlySteps(f.dates), LateSteps(f.dates), 9);
    MessagesArePlaced(f);
    PlacedAppend(TypeSteps(f) + RowSteps(f), DateSteps(f.dates), 0);
    PlacedAppend(TypeSteps(f) + RowSteps(f) + DateSteps(f.dates), CursorSteps(f), 0);
  }

  // ---- The whole query -------------------------------------------------------------------

  /** What all filters ask of a row, in terms of the filters and the row alone; skip leaves some out. */
  ghost predicate Wanted(f: Filters, skip: set<nat>, r: Row) {
    EachAsks(PlanOf(f), skip, r)
  }

  /** The places whose filter is lost: module's, when modules is given too. */
  function Lost(f: Filters): set<nat> {
    if f.moduleTypes != [] && f.modulesTypes != [] then {MODULE} else {}
  }

  /** Two calls at different places share a name only as module and modules. */
  lemma NamesApart(j: nat, s: Step, k: nat, t: Step, n: Name)
    requires Placed(j, s) && Placed(k, t) && j < k
    requires n in s.Binds() && n in t.Binds()
    ensures j == MODULE && k == MODULES
  {
    StepIsClosed(s, n);
    StepIsClosed(t, n);
  }

  lemma OnlyModuleDisturbed(f: Filters, i: nat)
    requires i < |PlanOf(f)| && PlanOf(f)[i].Some? && i !in Lost(f)
    ensures Undisturbed(PlanOf(f), i)
  {
    var plan := PlanOf(f);
    StepsArePlaced(f);
    forall j, n | i < j < |plan| && plan[j].Some? && n in plan[i].value.Binds()
      ensures n !in plan[j].value.Binds()
    {
      assert Placed(0 + i, plan[i].value) && Placed(0 + j, plan[j].value);
      if n in plan[j].value.Binds() {
        NamesApart(i, plan[i].value, j, plan[j].value, n);
        ModulePlaces(f);
        assert false;
      }
    }
  }

  lemma ModulePlaces(f: Filters)
    ensures |PlanOf(f)| > MODULES
    ensures PlanOf(f)[MODULE] == AmongTypes(f.moduleTypes, PModuleTypes)
    ensures PlanOf(f)[MODULES] == AmongTypes(f.modulesTypes, PModuleTypes)
  {
  }

  /**
   The built query selects a row if and only if every given filter asks for it, module being
   left out when modules is given too; and the database accepts it if and only if it accepts
   each of those filters.
   */
  lemma QueryMeansFilters(f: Filters, r: Row, hasStamp: bool)
    ensures Selects(Predicates(PlanOf(f)), Parameters(PlanOf(f)), r) <==> Wanted(f, Lost(f), r)
    ensures Accepts(Predicates(PlanOf(f)), Parameters(PlanOf(f)), hasStamp)
            <==> EachCanRun(PlanOf(f), Lost(f), hasStamp)
  {
    var plan := PlanOf(f);
    ModulePlaces(f);
    forall i | 0 <= i < |plan| && plan[i].Some? && i !in Lost(f) ensures Undisturbed(plan, i) {
      OnlyModuleDisturbed(f, i);
    }
    forall i | i in Lost(f) ensures RepeatedLater(plan, Lost(f), i) {
      assert i == MODULE && MODULES !in Lost(f);
      assert plan[i].value.Predicate() == plan[MODULES].value.Predicate();
    }
    QueryIsConjunction(plan, Lost(f), r, hasStamp);
  }

  /** The rows selected against the filters: those that only module would have turned away. */
  lemma WronglySelected(f: Filters, r: Row)
    ensures Wanted(f, {}, r) ==> Wanted(f, Lost(f), r)
    ensures Wanted(f, Lost(f), r) && !Wanted(f, {}, r) <==>
            && f.moduleTypes != [] && f.modulesTypes != []
            && Wanted(f, {MODULE}, r) && r.msgType !in f.moduleTypes
  {
    ModulePlaces(f);
  }

  /** No date filter at all. */
  const NO_DATES := DateFilters(
    None, None, None, None, None, None, None, None, None, None, None, None, None, false,
    None, None, None, None, None, None, None, false, None, None, false)

  /** No filter but a module and a list of modules, as the types they resolve to. */
  function OnlyModules(module_: seq<string>, modules: seq<string>): Filters {
    Filters(None, [], module_, modules, [], None, None, None, None, NO_DATES, None)
  }

  ghost predicate NoSteps(plan: Plan) {
    forall i :: 0 <= i < |plan| ==> plan[i] == None
  }

  lemma NoneAppend(a: Plan, b: Plan)
    ensures NoSteps(a + b) <==> NoSteps(a) && NoSteps(b)
  {
    if NoSteps(a + b) {
      forall i | 0 <= i < |a| ensures a[i] == None {
        assert (a + b)[i] == a[i];
      }
      forall i | 0 <= i < |b| ensures b[i] == None {
        assert (a + b)[|a| + i] == b[i];
      }
    }
  }

  lemma NoEarlySteps()
    ensures NoSteps(EarlySteps(NO_DATES))
  {
    NoneAppend(SpanSteps(NO_DATES), PartSteps(NO_DATES));
    NoneAppend(TimeSteps(NO_DATES), RelativeSteps(NO_DATES));
    NoneAppend(SpanSteps(NO_DATES) + PartSteps(NO_DATES), TimeSteps(NO_DATES) + RelativeSteps(NO_DATES));
  }

  lemma NoLateSteps()
    ensures NoSteps(LateSteps(NO_DATES))
  {
    NoneAppend(ListSteps(NO_DATES), FiscalSteps(NO_DATES));
    NoneAppend(RuleSteps(NO_DATES), ValiditySteps(NO_DATES));
    NoneAppend(ListSteps(NO_DATES) + FiscalSteps(NO_DATES), RuleSteps(NO_DATES) + ValiditySteps(NO_DATES));
  }

  lemma OtherSteps(f: Filters)
    requires f == OnlyModules(f.moduleTypes, f.modulesTypes)
    ensures NoSteps(RowSteps(f) + DateSteps(f.dates) + CursorSteps(f))
  {
    NoEarlySteps();
    NoLateSteps();
    NoneAppend(EarlySteps(NO_DATES), LateSteps(NO_DATES));
    NoneAppend(RowSteps(f), DateSteps(NO_DATES));
    NoneAppend(RowSteps(f) + DateSteps(NO_DATES), CursorSteps(f));
  }

  /** A row of one of the modules that is not of the module is selected, although the filters exclude it. */
  lemma ModuleIsIgnored(module_: seq<string>, modules: seq<string>, r: Row)
    requires module_ != [] && r.msgType in modules && r.msgType !in module_
    ensures var f := OnlyModules(module_, modules); Wanted(f, Lost(f), r) && !Wanted(f, {}, r)
  {
    var f := OnlyModules(module_, modules);
    var plan, others := PlanOf(f), RowSteps(f) + DateSteps(f.dates) + CursorSteps(f);
    ModulePlaces(f);
    OtherSteps(f);
    Regrouped(TypeSteps(f), RowSteps(f), DateSteps(f.dates), CursorSteps(f));
    assert plan == TypeSteps(f) + others;
    forall i | 5 <= i < |plan| ensures plan[i] == None {
      assert plan[i] == others[i - 5];
    }
    assert !Asks(plan[MODULE].value, r);
  }

  lemma Regrouped(a: Plan, b: Plan, c: Plan, d: Plan)
    ensures a + b + c + d == a + (b + c + d)
  {
  }

  // ---- The filters in plain terms -------------------------------------------------------------

  predicate MeetsTypes(f: Filters, r: Row) {
    && (f.msgType.Some? ==> r.msgType == f.msgType.value)
    && (f.types != [] ==> r.msgType in f.types)
    && (f.moduleTypes != [] && f.modulesTypes == [] ==> r.msgType in f.moduleTypes)
    && (f.modulesTypes != [] ==> r.msgType in f.modulesTypes)
    && (f.categoryTypes != [] ==> r.msgType in f.categoryTypes)
  }

  predicate MeetsRow(f: Filters, r: Row) {
    && (f.address.Some? ==> f.address.value in r.addresses)
    && (f.heightFrom.Some? ==> r.height >= f.heightFrom.value)
    && (f.heightTo.Some? ==> r.height <= f.heightTo.value)
    && (f.denom.Some? ==> Like(r.valueText, "%\"denom\":\"" + f.denom.value + "\"%"))
  }

  predicate MeetsCursor(f: Filters, r: Row) {
    f.cursor.Some? && f.cursor.value != 0 ==> r.height < f.cursor.value
  }

  /** Ranges of instants. */
  predicate MeetsSpan(d: DateFilters, r: Row) {
    && (d.dateFrom.Some? ==> r.stamp.Some? && r.stamp.value.instant >= d.dateFrom.value)
    && (d.dateTo.Some? ==> r.stamp.Some? && r.stamp.value.instant <= d.dateTo.value)
    && (d.dateExact.Some? ==>
          r.stamp.Some? && d.dateExact.value.0 <= r.stamp.value.instant <= d.dateExact.value.1)
  }

  predicate MeetsParts(d: DateFilters, r: Row) {
    && (d.year.Some? ==> r.stamp.Some? && r.stamp.value.year == d.year.value)
    && (d.month.Some? ==> r.stamp.Some? && r.stamp.value.month == d.month.value)
    && (d.day.Some? ==> r.stamp.Some? && r.stamp.value.day == d.day.value)
    && (d.dayOfWeek.Some? ==> r.stamp.Some? && r.stamp.value.dow == d.dayOfWeek.value)
  }

  predicate MeetsTime(d: DateFilters, r: Row) {
    && (d.hour.Some? ==> r.stamp.Some? && r.stamp.value.hour == d.hour.value)
    && (d.minute.Some? ==> r.stamp.Some? && r.stamp.value.minute == d.minute.value)
    && (d.second.Some? ==> r.stamp.Some? && r.stamp.value.second == d.second.value)
    && (d.timeFrom.Some? ==> r.stamp.Some? && r.stamp.value.timeOfDay >= d.timeFrom.value)
    && (d.timeTo.Some? ==> r.stamp.Some? && r.stamp.value.timeOfDay <= d.timeTo.value)
  }

  predicate MeetsRelative(d: DateFilters, r: Row) {
    && (d.relativeDate.Some? ==> r.stamp.Some? && r.stamp.value.instant >= d.relativeDate.value)
    && (d.businessDaysOnly ==> r.stamp.Some? && r.stamp.value.dow != 0 && r.stamp.value.dow != 6)
  }

  predicate MeetsLists(d: DateFilters, r: Row) {
    && (d.weekdays.Some? ==> r.stamp.Some? && r.stamp.value.dow in d.weekdays.value)
    && (d.months.Some? ==> r.stamp.Some? && r.stamp.value.month in d.months.value)
    && (d.years.Some? ==> r.stamp.Some? && r.stamp.value.year in d.years.value)
    && (d.quarters.Some? ==> r.stamp.Some? && r.stamp.value.quarter in d.quarters.value)
  }

  /** The months of a season, by its name in lower case. */
  predicate InSeason(month: int, season: string) {
    || (season == "spring" && 3 <= month <= 5)
    || (season == "summer" && 6 <= month <= 8)
    || ((season == "fall" || season == "autumn") && 9 <= month <= 11)
    || (season == "winter" && month in {12, 1, 2})
  }

  /** The fiscal year starts in April. */
  predicate InFiscalQuarter(month: int, quarter: int) {
    || (quarter == 1 && month in {4, 5, 6})
    || (quarter == 2 && month in {7, 8, 9})
    || (quarter == 3 && month in {10, 11, 12})
    || (quarter == 4 && month in {1, 2, 3})
  }

  predicate MeetsFiscal(d: DateFilters, r: Row) {
    && (d.season.Some? ==> r.stamp.Some? && InSeason(r.stamp.value.month, d.season.value))
    && (d.fiscalYear.Some? ==>
          r.stamp.Some? && d.fiscalYear.value.0 <= r.stamp.value.instant <= d.fiscalYear.value.1)
    && (d.fiscalQuarter.Some? ==> r.stamp.Some? && InFiscalQuarter(r.stamp.value.month, d.fiscalQuarter.value))
  }

  /** The dates at 2k and 2k + 1 are the start and the end of a range. */
  predicate IsRange(dates: seq<Option<int>>, k: nat) {
    2 * k + 1 < |dates| && dates[2 * k].Some? && dates[2 * k + 1].Some?
  }

  ghost predicate AnyRange(dates: seq<Option<int>>) {
    exists k: nat :: IsRange(dates, k)
  }

  ghost predicate InCustomRange(dates: seq<Option<int>>, r: Row) {
    r.stamp.Some? && exists k: nat :: IsRange(dates, k) && InRangeAt(dates, k, r.stamp.value.instant)
  }

  predicate InRangeAt(dates: seq<Option<int>>, k: nat, instant: int)
    requires IsRange(dates, k)
  {
    dates[2 * k].value <= instant <= dates[2 * k + 1].value
  }

  predicate LeapYear(year: int) {
    year % 4 == 0 && (year % 100 != 0 || year % 400 == 0)
  }

  ghost predicate MeetsRules(d: DateFilters, r: Row) {
    && (d.leapYearsOnly ==> r.stamp.Some? && LeapYear(r.stamp.value.year))
    && (d.customRanges.Some? && AnyRange(d.customRanges.value) ==> InCustomRange(d.customRanges.value, r))
  }

  /** An instant of 0 is the first of January 1970. */
  predicate MeetsValidity(d: DateFilters, r: Row) {
    && (d.offsetDate.Some? ==> r.stamp.Some? && r.stamp.value.instant >= d.offsetDate.value)
    && (d.validDatesOnly ==> r.stamp.Some? && r.stamp.value.instant != 0)
  }

  ghost predicate MeetsDates(d: DateFilters, r: Row) {
    && MeetsSpan(d, r) && MeetsParts(d, r) && MeetsTime(d, r) && MeetsRelative(d, r)
    && MeetsLists(d, r) && MeetsFiscal(d, r) && MeetsRules(d, r) && MeetsValidity(d, r)
  }

  /** What the selected rows are, by the fields of the filters and of the row; module gives way to modules. */
  ghost predicate Meets(f: Filters, r: Row) {
    MeetsTypes(f, r) && MeetsRow(f, r) && MeetsDates(f.dates, r) && MeetsCursor(f, r)
  }

  lemma AsksAppend(a: Plan, b: Plan, r: Row)
    ensures EachAsks(a + b, {}, r) <==> EachAsks(a, {}, r) && EachAsks(b, {}, r)
  {
    AsksAppendSkip(a, b, {}, r);
  }

  lemma AsksAppendSkip(a: Plan, b: Plan, skip: set<nat>, r: Row)
    requires forall i :: i in skip ==> i < |a|
    ensures EachAsks(a + b, skip, r) <==> EachAsks(a, skip, r) && EachAsks(b, {}, r)
  {
    if EachAsks(a + b, skip, r) {
      forall i | 0 <= i < |a| && i !in skip && a[i].Some? ensures Asks(a[i].value, r) {
        assert (a + b)[i] == a[i];
      }
      forall i | 0 <= i < |b| && b[i].Some? ensures Asks(b[i].value, r) {
        assert (a + b)[|a| + i] == b[i];
      }
    }
  }

  lemma TypesMeet(f: Filters, r: Row)
    ensures EachAsks(TypeSteps(f), Lost(f), r) <==> MeetsTypes(f, r)
  {
    var s := TypeSteps(f);
    assert s[0] == OfText(f.msgType, IsType) && s[1] == AmongTypes(f.types, PTypes);
    assert s[2] == AmongTypes(f.moduleTypes, PModuleTypes) && s[3] == AmongTypes(f.modulesTypes, PModuleTypes);
    assert s[4] == AmongTypes(f.categoryTypes, PCategoryTypes);
  }

  lemma RowMeets(f: Filters, r: Row)
    ensures EachAsks(RowSteps(f), {}, r) <==> MeetsRow(f, r)
  {
    var s := RowSteps(f);
    assert s[0] == OfText(f.address, IsInvolved) && s[1] == Number(f.heightFrom, Height, AtLeast, PHeightFrom);
    assert s[2] == Number(f.heightTo, Height, AtMost, PHeightTo) && s[3] == OfText(f.denom, HasDenom);
  }

  lemma CursorMeets(f: Filters, r: Row)
    ensures EachAsks(CursorSteps(f), {}, r) <==> MeetsCursor(f, r)
  {
    assert CursorSteps(f)[0] == Number(Positive(f.cursor), Height, Below, PCursor);
  }

  lemma SpanMeets(d: DateFilters, r: Row)
    ensures EachAsks(SpanSteps(d), {}, r) <==> MeetsSpan(d, r)
  {
    var s := SpanSteps(d);
    assert s[0] == Number(d.dateFrom, Instant, AtLeast, PDateFrom);
    assert s[1] == Number(d.dateTo, Instant, AtMost, PDateTo);
    assert s[2] == Number(Start(d.dateExact), Instant, AtLeast, PExactDateStart);
    assert s[3] == Number(End(d.dateExact), Instant, AtMost, PExactDateEnd);
  }

  lemma PartsMeet(d: DateFilters, r: Row)
    ensures EachAsks(PartSteps(d), {}, r) <==> MeetsParts(d, r)
  {
    var s := PartSteps(d);
    assert s[0] == Number(d.year, Year, Equal, PYear) && s[1] == Number(d.month, Month, Equal, PMonth);
    assert s[2] == Number(d.day, Day, Equal, PDay) && s[3] == Number(d.dayOfWeek, Dow, Equal, PDayOfWeek);
  }

  lemma TimeMeets(d: DateFilters, r: Row)
    ensures EachAsks(TimeSteps(d), {}, r) <==> MeetsTime(d, r)
  {
    var s := TimeSteps(d);
    assert s[0] == Number(d.hour, Hour, Equal, PHour) && s[1] == Number(d.minute, Minute, Equal, PMinute);
    assert s[2] == Number(d.second, Second, Equal, PSecond);
    assert s[3] == Number(d.timeFrom, TimeOfDay, AtLeast, PTimeFrom);
    assert s[4] == Number(d.timeTo, TimeOfDay, AtMost, PTimeTo);
  }

  lemma RelativeMeets(d: DateFilters, r: Row)
    ensures EachAsks(RelativeSteps(d), {}, r) <==> MeetsRelative(d, r)
  {
    var s := RelativeSteps(d);
    assert s[0] == Number(d.relativeDate, Instant, AtLeast, PRelativeDate);
    assert s[1] == Flag(d.businessDaysOnly, NotWeekend);
  }

  lemma ListsMeet(d: DateFilters, r: Row)
    ensures EachAsks(ListSteps(d), {}, r) <==> MeetsLists(d, r)
  {
    var s := ListSteps(d);
    assert s[0] == Among(d.weekdays, Dow, PWeekdays) && s[1] == Among(d.months, Month, PMonths);
    assert s[2] == Among(d.years, Year, PYears) && s[3] == Among(d.quarters, Quarter, PQuarters);
  }

  lemma MonthsMean(month: int, season: string, quarter: int)
    ensures month in SeasonMonths(season) <==> InSeason(month, season)
    ensures month in FiscalQuarterMonths(quarter) <==> InFiscalQuarter(month, quarter)
  {
  }

  lemma FiscalMeets(d: DateFilters, r: Row)
    ensures EachAsks(FiscalSteps(d), {}, r) <==> MeetsFiscal(d, r)
  {
    var s := FiscalSteps(d);
    assert s[0] == Among(MonthsOf(d.season), Month, PSeasonMonths);
    assert s[1] == Number(Start(d.fiscalYear), Instant, AtLeast, PFiscalYearStart);
    assert s[2] == Number(End(d.fiscalYear), Instant, AtMost, PFiscalYearEnd);
    assert s[3] == Among(MonthsIn(d.fiscalQuarter), Month, PQuarterMonths);
    if r.stamp.Some? {
      MonthsMean(r.stamp.value.month, if d.season.Some? then d.season.value else "",
                 if d.fiscalQuarter.Some? then d.fiscalQuarter.value else 0);
    }
  }

  /** The ranges are the pairs of dates at 2k and 2k + 1, and no others. */
  lemma {:induction false} RangesArePairs(dates: seq<Option<int>>, x: int, y: int)
    ensures (x, y) in Ranges(dates) <==>
            exists k: nat :: IsRange(dates, k) && dates[2 * k].value == x && dates[2 * k + 1].value == y
  {
    if |dates| >= 2 {
      var rest := dates[2..];
      RangesArePairs(rest, x, y);
      assert forall k: nat :: IsRange(rest, k) <==> IsRange(dates, k + 1);
      if k: nat :| IsRange(rest, k) && rest[2 * k].value == x && rest[2 * k + 1].value == y {
        assert IsRange(dates, k + 1) && dates[2 * (k + 1)].value == x && dates[2 * (k + 1) + 1].value == y;
      }
      if k: nat :| IsRange(dates, k) && dates[2 * k].value == x && dates[2 * k + 1].value == y {
        if k > 0 {
          assert IsRange(rest, k - 1) && rest[2 * (k - 1)].value == x && rest[2 * (k - 1) + 1].value == y;
        }
      }
      if dates[0].Some? && dates[1].Some? {
        assert IsRange(dates, 0);
      }
    }
  }

  lemma RangesMeet(dates: seq<Option<int>>, r: Row)
    ensures Ranges(dates) != [] <==> AnyRange(dates)
    ensures Asks(RangesStep(Ranges(dates)), r) <==> InCustomRange(dates, r)
  {
    var ranges := Ranges(dates);
    if ranges != [] {
      var (x, y) := ranges[0];
      RangesArePairs(dates, x, y);
      assert (x, y) in ranges;
    }
    if k: nat :| IsRange(dates, k) {
      RangesArePairs(dates, dates[2 * k].value, dates[2 * k + 1].value);
    }
    if i :| 0 <= i < |ranges| && Within(ranges[i], r) {
      RangesArePairs(dates, ranges[i].0, ranges[i].1);
      assert (ranges[i].0, ranges[i].1) in ranges;
      var k: nat :| IsRange(dates, k) && dates[2 * k].value == ranges[i].0 && dates[2 * k + 1].value == ranges[i].1;
      assert InRangeAt(dates, k, r.stamp.value.instant);
    }
    if r.stamp.Some? {
      if k: nat :| IsRange(dates, k) && InRangeAt(dates, k, r.stamp.value.instant) {
        var range := (dates[2 * k].value, dates[2 * k + 1].value);
        RangesArePairs(dates, range.0, range.1);
        var i :| 0 <= i < |ranges| && ranges[i] == range;
        assert Within(ranges[i], r);
      }
    }
  }

  lemma RulesMeet(d: DateFilters, r: Row)
    ensures EachAsks(RuleSteps(d), {}, r) <==> MeetsRules(d, r)
  {
    var s := RuleSteps(d);
    assert s[0] == Flag(d.leapYearsOnly, FourthYear) && s[1] == Flag(d.leapYearsOnly, NotPlainCentury);
    assert s[2] == CustomStep(d.customRanges);
    if d.customRanges.Some? {
      RangesMeet(d.customRanges.value, r);
    }
  }

  lemma ValidityMeets(d: DateFilters, r: Row)
    ensures EachAsks(ValiditySteps(d), {}, r) <==> MeetsValidity(d, r)
  {
    var s := ValiditySteps(d);
    assert s[0] == Number(d.offsetDate, Instant, AtLeast, POffsetDate);
    assert s[1] == Flag(d.validDatesOnly, NotNull) && s[2] == Flag(d.validDatesOnly, NotEpoch);
  }

  lemma EarlyMeets(d: DateFilters, r: Row)
    ensures EachAsks(EarlySteps(d), {}, r) <==>
            MeetsSpan(d, r) && MeetsParts(d, r) && MeetsTime(d, r) && MeetsRelative(d, r)
  {
    AsksAppend(SpanSteps(d), PartSteps(d), r);
    AsksAppend(TimeSteps(d), RelativeSteps(d), r);
    AsksAppend(SpanSteps(d) + PartSteps(d), TimeSteps(d) + RelativeSteps(d), r);
    SpanMeets(d, r);
    PartsMeet(d, r);
    TimeMeets(d, r);
    RelativeMeets(d, r);
  }

  lemma LateMeets(d: DateFilters, r: Row)
    ensures EachAsks(LateSteps(d), {}, r) <==>
            MeetsLists(d, r) && MeetsFiscal(d, r) && MeetsRules(d, r) && MeetsValidity(d, r)
  {
    AsksAppend(ListSteps(d), FiscalSteps(d), r);
    AsksAppend(RuleSteps(d), ValiditySteps(d), r);
    AsksAppend(ListSteps(d) + FiscalSteps(d), RuleSteps(d) + ValiditySteps(d), r);
    ListsMeet(d, r);
    FiscalMeets(d, r);
    RulesMeet(d, r);
    ValidityMeets(d, r);
  }

  /** The calls ask of a row what the filters say in plain terms. */
  lemma WantedMeansMeets(f: Filters, r: Row)
    ensures Wanted(f, Lost(f), r) <==> Meets(f, r)
  {
    AsksAppendSkip(TypeSteps(f), RowSteps(f), Lost(f), r);
    AsksAppend(EarlySteps(f.dates), LateSteps(f.dates), r);
    AsksAppendSkip(TypeSteps(f) + RowSteps(f), DateSteps(f.dates), Lost(f), r);
    AsksAppendSkip(TypeSteps(f) + RowSteps(f) + DateSteps(f.dates), CursorSteps(f), Lost(f), r);
    TypesMeet(f, r);
    RowMeets(f, r);
    EarlyMeets(f.dates, r);
    LateMeets(f.dates, r);
    CursorMeets(f, r);
  }

  /** The denom filter finds its text anywhere in the message, if the denom has no wildcards. */
  lemma DenomIsFound(denom: string, text: string)
    requires NoWildcards(denom)
    ensures Like(text, "%\"denom\":\"" + denom + "\"%") <==> HasPart(text, "\"denom\":\"" + denom + "\"")
  {
    var part := "\"denom\":\"" + denom + "\"";
    assert "%" + part + "%" == "%\"denom\":\"" + denom + "\"%";
    forall i | 0 <= i < |part| ensures part[i] != '%' && part[i] != '_' {
      if 9 <= i < 9 + |denom| {
        assert part[i] == denom[i - 9];
      }
    }
    LikeMeansHasPart(text, part);
  }

  // ---- Which queries are refused ------------------------------------------------------------

  lemma CanRunAppend(a: Plan, b: Plan, hasStamp: bool)
    ensures EachCanRun(a + b, {}, hasStamp) <==> EachCanRun(a, {}, hasStamp) && EachCanRun(b, {}, hasStamp)
  {
    if EachCanRun(a + b, {}, hasStamp) {
      forall i | 0 <= i < |a| && a[i].Some? ensures CanRun(a[i].value, hasStamp) {
        assert (a + b)[i] == a[i];
      }
      forall i | 0 <= i < |b| && b[i].Some? ensures CanRun(b[i].value, hasStamp) {
        assert (a + b)[|a| + i] == b[i];
      }
    }
  }

  /** No date filter leads to a call. */
  predicate NoDates(d: DateFilters) {
    forall i :: 0 <= i < |DateSteps(d)| ==> DateSteps(d)[i] == None
  }

  predicate NotEmptyList(xs: Option<seq<int>>) {
    xs != Some([])
  }

  /**
   What the database accepts: no time of day, no season or fiscal quarter without months, no
   empty list, and no date filter at all on a table without a timestamp.
   */
  predicate FiltersRun(d: DateFilters, hasStamp: bool) {
    (hasStamp || NoDates(d)) && d.timeFrom.None? && d.timeTo.None? && ListsRun(d)
  }

  predicate ListsRun(d: DateFilters) {
    && NotEmptyList(MonthsOf(d.season)) && NotEmptyList(MonthsIn(d.fiscalQuarter))
    && NotEmptyList(d.weekdays) && NotEmptyList(d.months) && NotEmptyList(d.years) && NotEmptyList(d.quarters)
  }

  lemma NoStampNoDates(d: DateFilters)
    ensures EachCanRun(DateSteps(d), {}, false) <==> NoDates(d)
  {
    DatesAskStamps(d);
  }

  predicate AsksStamp(s: Step) {
    s.PlainStep? || s.RangesStep? || ((s.CompareStep? || s.OneOfStep?) && s.column != Height)
  }

  ghost predicate AllAskStamps(plan: Plan) {
    forall i :: 0 <= i < |plan| && plan[i].Some? ==> AsksStamp(plan[i].value)
  }

  lemma DatesAskStamps(d: DateFilters)
    ensures AllAskStamps(DateSteps(d))
  {
    assert AllAskStamps(SpanSteps(d)) && AllAskStamps(PartSteps(d)) && AllAskStamps(TimeSteps(d));
    assert AllAskStamps(RelativeSteps(d)) && AllAskStamps(ListSteps(d)) && AllAskStamps(FiscalSteps(d));
    assert AllAskStamps(RuleSteps(d)) && AllAskStamps(ValiditySteps(d));
  }

  lemma EarlyCanRun(d: DateFilters)
    ensures EachCanRun(EarlySteps(d), {}, true) <==> d.timeFrom.None? && d.timeTo.None?
  {
    CanRunAppend(SpanSteps(d), PartSteps(d), true);
    CanRunAppend(TimeSteps(d), RelativeSteps(d), true);
    CanRunAppend(SpanSteps(d) + PartSteps(d), TimeSteps(d) + RelativeSteps(d), true);
    TimesCanRun(d);
  }

  lemma LateCanRun(d: DateFilters)
    ensures EachCanRun(LateSteps(d), {}, true) <==> ListsRun(d)
  {
    CanRunAppend(ListSteps(d), FiscalSteps(d), true);
    CanRunAppend(RuleSteps(d), ValiditySteps(d), true);
    CanRunAppend(ListSteps(d) + FiscalSteps(d), RuleSteps(d) + ValiditySteps(d), true);
    ListsCanRun(d);
    FiscalCanRun(d);
  }

  /** The date filters are accepted. */
  lemma DatesCanRunIff(d: DateFilters, hasStamp: bool)
    ensures EachCanRun(DateSteps(d), {}, hasStamp) <==> FiltersRun(d, hasStamp)
  {
    CanRunAppend(EarlySteps(d), LateSteps(d), true);
    EarlyCanRun(d);
    LateCanRun(d);
    NoStampNoDates(d);
    if NoDates(d) {
      assert EachCanRun(DateSteps(d), {}, true);
    }
  }

  /** The filters without dates are always accepted. */
  lemma OthersCanRun(f: Filters, hasStamp: bool)
    ensures EachCanRun(TypeSteps(f) + RowSteps(f), {}, hasStamp) && EachCanRun(CursorSteps(f), {}, hasStamp)
  {
    CanRunAppend(TypeSteps(f), RowSteps(f), hasStamp);
  }

  /** A query is refused if and only if its date filters are; the module that is lost does not matter. */
  lemma RefusedIff(f: Filters, hasStamp: bool)
    ensures Accepts(Predicates(PlanOf(f)), Parameters(PlanOf(f)), hasStamp) <==> FiltersRun(f.dates, hasStamp)
  {
    QueryMeansFilters(f, Row("", 0, "", [], None), hasStamp);
    OthersCanRun(f, hasStamp);
    CanRunAppend(TypeSteps(f) + RowSteps(f), DateSteps(f.dates), hasStamp);
    CanRunAppend(TypeSteps(f) + RowSteps(f) + DateSteps(f.dates), CursorSteps(f), hasStamp);
    DatesCanRunIff(f.dates, hasStamp);
    ModulePlaces(f);
    assert EachCanRun(PlanOf(f), Lost(f), hasStamp) <==> EachCanRun(PlanOf(f), {}, hasStamp);
  }

  lemma TimesCanRun(d: DateFilters)
    ensures EachCanRun(TimeSteps(d), {}, true) <==> d.timeFrom.None? && d.timeTo.None?
  {
    assert TimeSteps(d)[3] == Number(d.timeFrom, TimeOfDay, AtLeast, PTimeFrom);
    assert TimeSteps(d)[4] == Number(d.timeTo, TimeOfDay, AtMost, PTimeTo);
  }

  lemma ListsCanRun(d: DateFilters)
    ensures EachCanRun(ListSteps(d), {}, true) <==>
            NotEmptyList(d.weekdays) && NotEmptyList(d.months) && NotEmptyList(d.years) && NotEmptyList(d.quarters)
  {
    assert ListSteps(d)[0] == Among(d.weekdays, Dow, PWeekdays) && ListSteps(d)[1] == Among(d.months, Month, PMonths);
    assert ListSteps(d)[2] == Among(d.years, Year, PYears) && ListSteps(d)[3] == Among(d.quarters, Quarter, PQuarters);
  }

  lemma FiscalCanRun(d: DateFilters)
    ensures EachCanRun(FiscalSteps(d), {}, true)
            <==> NotEmptyList(MonthsOf(d.season)) && NotEmptyList(MonthsIn(d.fiscalQuarter))
  {
    assert FiscalSteps(d)[0] == Among(MonthsOf(d.season), Month, PSeasonMonths);
    assert FiscalSteps(d)[3] == Among(MonthsIn(d.fiscalQuarter), Month, PQuarterMonths);
  }

  /** No date filter is given, or only custom ranges without a valid pair. */
  ghost predicate NoneGiven(d: DateFilters) {
    && d.dateFrom.None? && d.dateTo.None? && d.dateExact.None?
    && d.year.None? && d.month.None? && d.day.None? && d.dayOfWeek.None?
    && d.hour.None? && d.minute.None? && d.second.None? && d.timeFrom.None? && d.timeTo.None?
    && d.relativeDate.None? && !d.businessDaysOnly
    && d.weekdays.None? && d.months.None? && d.years.None? && d.quarters.None?
    && d.season.None? && d.fiscalYear.None? && d.fiscalQuarter.None?
    && !d.leapYearsOnly && (d.customRanges.Some? ==> !AnyRange(d.customRanges.value))
    && d.offsetDate.None? && !d.validDatesOnly
  }

  /** What the database accepts, by the fields of the filters. */
  ghost predicate Runnable(d: DateFilters, hasStamp: bool) {
    && (hasStamp || NoneGiven(d))
    && d.timeFrom.None? && d.timeTo.None?
    && (d.season.Some? ==> d.season.value in {"spring", "summer", "fall", "autumn", "winter"})
    && (d.fiscalQuarter.Some? ==> 1 <= d.fiscalQuarter.value <= 4)
    && d.weekdays != Some([]) && d.months != Some([]) && d.years != Some([]) && d.quarters != Some([])
  }

  lemma EarlyNone(d: DateFilters)
    ensures NoSteps(EarlySteps(d)) <==>
            && d.dateFrom.None? && d.dateTo.None? && d.dateExact.None?
            && d.year.None? && d.month.None? && d.day.None? && d.dayOfWeek.None?
            && d.hour.None? && d.minute.None? && d.second.None? && d.timeFrom.None? && d.timeTo.None?
            && d.relativeDate.None? && !d.businessDaysOnly
  {
    NoneAppend(SpanSteps(d), PartSteps(d));
    NoneAppend(TimeSteps(d), RelativeSteps(d));
    NoneAppend(SpanSteps(d) + PartSteps(d), TimeSteps(d) + RelativeSteps(d));
    SpanNone(d);
    PartsNone(d);
    TimeNone(d);
    RelativeNone(d);
  }

  lemma SpanNone(d: DateFilters)
    ensures NoSteps(SpanSteps(d)) <==> d.dateFrom.None? && d.dateTo.None? && d.dateExact.None?
  {
    var s := SpanSteps(d);
    assert s[0].None? <==> d.dateFrom.None?;
    assert s[1].None? <==> d.dateTo.None?;
    assert s[2].None? <==> d.dateExact.None?;
    assert s[3].None? <==> d.dateExact.None?;
  }

  lemma PartsNone(d: DateFilters)
    ensures NoSteps(PartSteps(d)) <==> d.year.None? && d.month.None? && d.day.None? && d.dayOfWeek.None?
  {
    var s := PartSteps(d);
    assert s[0].None? <==> d.year.None?;
    assert s[1].None? <==> d.month.None?;
    assert s[2].None? <==> d.day.None?;
    assert s[3].None? <==> d.dayOfWeek.None?;
  }

  lemma TimeNone(d: DateFilters)
    ensures NoSteps(TimeSteps(d)) <==>
            d.hour.None? && d.minute.None? && d.second.None? && d.timeFrom.None? && d.timeTo.None?
  {
    var s := TimeSteps(d);
    assert s[0].None? <==> d.hour.None?;
    assert s[1].None? <==> d.minute.None?;
    assert s[2].None? <==> d.second.None?;
    assert s[3].None? <==> d.timeFrom.None?;
    assert s[4].None? <==> d.timeTo.None?;
  }

  lemma RelativeNone(d: DateFilters)
    ensures NoSteps(RelativeSteps(d)) <==> d.relativeDate.None? && !d.businessDaysOnly
  {
    var s := RelativeSteps(d);
    assert s[0].None? <==> d.relativeDate.None?;
    assert s[1].None? <==> !d.businessDaysOnly;
  }

  lemma LateNone(d: DateFilters)
    ensures NoSteps(LateSteps(d)) <==>
            && d.weekdays.None? && d.months.None? && d.years.None? && d.quarters.None?
            && d.season.None? && d.fiscalYear.None? && d.fiscalQuarter.None?
            && !d.leapYearsOnly && (d.customRanges.Some? ==> !AnyRange(d.customRanges.value))
            && d.offsetDate.None? && !d.validDatesOnly
  {
    NoneAppend(ListSteps(d), FiscalSteps(d));
    NoneAppend(RuleSteps(d), ValiditySteps(d));
    NoneAppend(ListSteps(d) + FiscalSteps(d), RuleSteps(d) + ValiditySteps(d));
    ListsNone(d);
    FiscalNone(d);
    RulesNone(d);
    ValidityNone(d);
  }

  lemma ListsNone(d: DateFilters)
    ensures NoSteps(ListSteps(d)) <==> d.weekdays.None? && d.months.None? && d.years.None? && d.quarters.None?
  {
    var s := ListSteps(d);
    assert s[0].None? <==> d.weekdays.None?;
    assert s[1].None? <==> d.months.None?;
    assert s[2].None? <==> d.years.None?;
    assert s[3].None? <==> d.quarters.None?;
  }

  lemma FiscalNone(d: DateFilters)
    ensures NoSteps(FiscalSteps(d)) <==> d.season.None? && d.fiscalYear.None? && d.fiscalQuarter.None?
  {
    var s := FiscalSteps(d);
    assert s[0].None? <==> d.season.None?;
    assert s[1].None? <==> d.fiscalYear.None?;
    assert s[2].None? <==> d.fiscalYear.None?;
    assert s[3].None? <==> d.fiscalQuarter.None?;
  }

  lemma RulesNone(d: DateFilters)
    ensures NoSteps(RuleSteps(d)) <==>
            !d.leapYearsOnly && (d.customRanges.Some? ==> !AnyRange(d.customRanges.value))
  {
    var s := RuleSteps(d);
    assert s[0].None? <==> !d.leapYearsOnly;
    assert s[1].None? <==> !d.leapYearsOnly;
    assert s[2] == CustomStep(d.customRanges);
    if d.customRanges.Some? {
      RangesMeet(d.customRanges.value, Row("", 0, "", [], None));
    }
  }

  lemma ValidityNone(d: DateFilters)
    ensures NoSteps(ValiditySteps(d)) <==> d.offsetDate.None? && !d.validDatesOnly
  {
    var s := ValiditySteps(d);
    assert s[0].None? <==> d.offsetDate.None?;
    assert s[1].None? <==> !d.validDatesOnly;
    assert s[2].None? <==> !d.validDatesOnly;
  }

  lemma MonthsOrNone(d: DateFilters)
    ensures NotEmptyList(MonthsOf(d.season)) <==>
            (d.season.Some? ==> d.season.value in {"spring", "summer", "fall", "autumn", "winter"})
    ensures NotEmptyList(MonthsIn(d.fiscalQuarter)) <==> (d.fiscalQuarter.Some? ==> 1 <= d.fiscalQuarter.value <= 4)
  {
  }

  lemma RunnableIff(d: DateFilters, hasStamp: bool)
    ensures FiltersRun(d, hasStamp) <==> Runnable(d, hasStamp)
  {
    NoneAppend(EarlySteps(d), LateSteps(d));
    EarlyNone(d);
    LateNone(d);
    MonthsOrNone(d);
    assert NoDates(d) <==> NoSteps(DateSteps(d));
  }

  /** A season without months makes the database refuse the query, whatever the other filters. */
  lemma UnknownSeasonIsRefused(f: Filters, hasStamp: bool)
    requires f.dates.season == Some("monsoon")
    ensures !Accepts(Predicates(PlanOf(f)), Parameters(PlanOf(f)), hasStamp)
  {
    RefusedIff(f, hasStamp);
  }

  /** On the message table, which has no timestamp, a start date does. */
  lemma DateIsRefusedOnMessages(f: Filters)
    requires f.dates.dateFrom.Some?
    ensures !Accepts(Predicates(PlanOf(f)), Parameters(PlanOf(f)), false)
  {
    RefusedIff(f, false);
    assert DateSteps(f.dates)[0] == Number(f.dates.dateFrom, Instant, AtLeast, PDateFrom);
  }

  // ---- The program ---------------------------------------------------------------------------

  lemma {:induction false} WithRangesMerges(ps: Params, ranges: seq<(int, int)>, n: nat)
    requires n <= |ranges|
    ensures WithRanges(ps, ranges, n) == ps + RangeParams(ranges, n)
  {
    if n > 0 {
      WithRangesMerges(ps, ranges, n - 1);
      var (start, end) := ranges[n - 1];
      MergeThenSet(ps, RangeParams(ranges, n - 1), RangeStart(n - 1), Num(start));
      MergeThenSet(ps, RangeParams(ranges, n - 1)[RangeStart(n - 1) := Num(start)], RangeEnd(n - 1), Num(end));
    } else {
      MergeNothing(ps);
    }
  }

  lemma MergeThenSet(a: Params, b: Params, n: Name, v: Value)
    ensures (a + b)[n := v] == a + b[n := v]
  {
  }

  lemma MergeNothing(a: Params)
    ensures a + map[] == a
  {
  }

  /** setParameter, range by range. */
  method SetRanges(qb: SelectQueryBuilder, ranges: seq<(int, int)>)
    modifies qb`parameters
    ensures qb.parameters == WithRanges(old(qb.parameters), ranges, |ranges|)
  {
    for index := 0 to |ranges|
      invariant qb.parameters == WithRanges(old(qb.parameters), ranges, index)
    {
      qb.SetParameter(RangeStart(index), Num(ranges[index].0));
      qb.SetParameter(RangeEnd(index), Num(ranges[index].1));
    }
  }

  /** The parameters are set before the predicate that reads them. */
  method AddCustomRanges(qb: SelectQueryBuilder, dates: Option<seq<Option<int>>>)
    requires qb.Valid()
    modifies qb
    ensures qb.Valid() && qb.calls == old(qb.calls) + [CustomStep(dates)]
  {
    PlanStep(qb.calls, CustomStep(dates));
    if dates.Some? {
      var ranges := ParseCustomRanges(dates.value);
      WithRangesMerges(qb.parameters, ranges, |ranges|);
      MergeNothing(qb.parameters + RangeParams(ranges, |ranges|));
      SetRanges(qb, ranges);
      if |ranges| > 0 {
        qb.AndWhere(InAnyRange(|ranges|), map[]);
      }
    }
    qb.calls := qb.calls + [CustomStep(dates)];
  }

  /** column >= :p, and the like, if the filter is given. */
  method AddNumber(qb: SelectQueryBuilder, x: Option<int>, c: Column, o: Order, p: FixedName)
    requires qb.Valid()
    modifies qb
    ensures qb.Valid() && qb.calls == old(qb.calls) + [Number(x, c, o, p)]
  {
    PlanStep(qb.calls, Number(x, c, o, p));
    if x.Some? {
      qb.AndWhere(Compare(c, o, Fixed(p)), map[Fixed(p) := Num(x.value)]);
    }
    qb.calls := qb.calls + [Number(x, c, o, p)];
  }

  /** column IN (:...p), if the filter is given. */
  method AddAmong(qb: SelectQueryBuilder, xs: Option<seq<int>>, c: Column, p: FixedName)
    requires qb.Valid()
    modifies qb
    ensures qb.Valid() && qb.calls == old(qb.calls) + [Among(xs, c, p)]
  {
    PlanStep(qb.calls, Among(xs, c, p));
    if xs.Some? {
      qb.AndWhere(OneOf(c, Fixed(p)), map[Fixed(p) := Nums(xs.value)]);
    }
    qb.calls := qb.calls + [Among(xs, c, p)];
  }

  /** message.type IN (:...p), if there are types. */
  method AddTypes(qb: SelectQueryBuilder, types: seq<string>, p: FixedName)
    requires qb.Valid()
    modifies qb
    ensures qb.Valid() && qb.calls == old(qb.calls) + [AmongTypes(types, p)]
  {
    PlanStep(qb.calls, AmongTypes(types, p));
    if |types| > 0 {
      qb.AndWhere(TypeOneOf(Fixed(p)), map[Fixed(p) := Texts(types)]);
    }
    qb.calls := qb.calls + [AmongTypes(types, p)];
  }

  /** A predicate without parameters, if the flag is set. */
  method AddFlag(qb: SelectQueryBuilder, given: bool, l: Literal)
    requires qb.Valid()
    modifies qb
    ensures qb.Valid() && qb.calls == old(qb.calls) + [Flag(given, l)]
  {
    PlanStep(qb.calls, Flag(given, l));
    if given {
      qb.AndWhere(Plain(l), map[]);
    }
    qb.calls := qb.calls + [Flag(given, l)];
  }

  /** message.type = :type, :address = ANY(...) and value LIKE :denom. */
  method AddText(qb: SelectQueryBuilder, text: Option<string>, kind: TextKind)
    requires qb.Valid()
    modifies qb
    ensures qb.Valid() && qb.calls == old(qb.calls) + [OfText(text, kind)]
  {
    PlanStep(qb.calls, OfText(text, kind));
    if text.Some? {
      match kind
      case IsType => qb.AndWhere(TypeIs(Fixed(PType)), map[Fixed(PType) := Text(text.value)]);
      case IsInvolved => qb.AndWhere(Involves(Fixed(PAddress)), map[Fixed(PAddress) := Text(text.value)]);
      case HasDenom => qb.AndWhere(ValueLike(Fixed(PDenom)), map[Fixed(PDenom) := Text(DenomPattern(text.value))]);
    }
    qb.calls := qb.calls + [OfText(text, kind)];
  }

  method AddSpans(qb: SelectQueryBuilder, d: DateFilters)
    requires qb.Valid()
    modifies qb
    ensures qb.Valid() && qb.calls == old(qb.calls) + SpanSteps(d)
  {
    AddNumber(qb, d.dateFrom, Instant, AtLeast, PDateFrom);
    AddNumber(qb, d.dateTo, Instant, AtMost, PDateTo);
    AddNumber(qb, Start(d.dateExact), Instant, AtLeast, PExactDateStart);
    AddNumber(qb, End(d.dateExact), Instant, AtMost, PExactDateEnd);
  }

  method AddParts(qb: SelectQueryBuilder, d: DateFilters)
    requires qb.Valid()
    modifies qb
    ensures qb.Valid() && qb.calls == old(qb.calls) + PartSteps(d)
  {
    AddNumber(qb, d.year, Year, Equal, PYear);
    AddNumber(qb, d.month, Month, Equal, PMonth);
    AddNumber(qb, d.day, Day, Equal, PDay);
    AddNumber(qb, d.dayOfWeek, Dow, Equal, PDayOfWeek);
  }

  method AddTimes(qb: SelectQueryBuilder, d: DateFilters)
    requires qb.Valid()
    modifies qb
    ensures qb.Valid() && qb.calls == old(qb.calls) + TimeSteps(d)
  {
    AddNumber(qb, d.hour, Hour, Equal, PHour);
    AddNumber(qb, d.minute, Minute, Equal, PMinute);
    AddNumber(qb, d.second, Second, Equal, PSecond);
    AddNumber(qb, d.timeFrom, TimeOfDay, AtLeast, PTimeFrom);
    AddNumber(qb, d.timeTo, TimeOfDay, AtMost, PTimeTo);
  }

  method AddRelatives(qb: SelectQueryBuilder, d: DateFilters)
    requires qb.Valid()
    modifies qb
    ensures qb.Valid() && qb.calls == old(qb.calls) + RelativeSteps(d)
  {
    AddNumber(qb, d.relativeDate, Instant, AtLeast, PRelativeDate);
    AddFlag(qb, d.businessDaysOnly, NotWeekend);
  }

  method AddLists(qb: SelectQueryBuilder, d: DateFilters)
    requires qb.Valid()
    modifies qb
    ensures qb.Valid() && qb.calls == old(qb.calls) + ListSteps(d)
  {
    AddAmong(qb, d.weekdays, Dow, PWeekdays);
    AddAmong(qb, d.months, Month, PMonths);
    AddAmong(qb, d.years, Year, PYears);
    AddAmong(qb, d.quarters, Quarter, PQuarters);
  }

  method AddFiscals(qb: SelectQueryBuilder, d: DateFilters)
    requires qb.Valid()
    modifies qb
    ensures qb.Valid() && qb.calls == old(qb.calls) + FiscalSteps(d)
  {
    AddAmong(qb, MonthsOf(d.season), Month, PSeasonMonths);
    AddNumber(qb, Start(d.fiscalYear), Instant, AtLeast, PFiscalYearStart);
    AddNumber(qb, End(d.fiscalYear), Instant, AtMost, PFiscalYearEnd);
    AddAmong(qb, MonthsIn(d.fiscalQuarter), Month, PQuarterMonths);
  }

  method AddRules(qb: SelectQueryBuilder, d: DateFilters)
    requires qb.Valid()
    modifies qb
    ensures qb.Valid() && qb.calls == old(qb.calls) + RuleSteps(d)
  {
    AddFlag(qb, d.leapYearsOnly, FourthYear);
    AddFlag(qb, d.leapYearsOnly, NotPlainCentury);
    AddCustomRanges(qb, d.customRanges);
  }

  method AddValidity(qb: SelectQueryBuilder, d: DateFilters)
    requires qb.Valid()
    modifies qb
    ensures qb.Valid() && qb.calls == old(qb.calls) + ValiditySteps(d)
  {
    AddNumber(qb, d.offsetDate, Instant, AtLeast, POffsetDate);
    AddFlag(qb, d.validDatesOnly, NotNull);
    AddFlag(qb, d.validDatesOnly, NotEpoch);
  }

  method AddEarly(qb: SelectQueryBuilder, d: DateFilters)
    requires qb.Valid()
    modifies qb
    ensures qb.Valid() && qb.calls == old(qb.calls) + EarlySteps(d)
  {
    AddSpans(qb, d);
    AddParts(qb, d);
    AddTimes(qb, d);
    AddRelatives(qb, d);
    Regroup(old(qb.calls), SpanSteps(d), PartSteps(d), TimeSteps(d), RelativeSteps(d));
  }

  method AddLate(qb: SelectQueryBuilder, d: DateFilters)
    requires qb.Valid()
    modifies qb
    ensures qb.Valid() && qb.calls == old(qb.calls) + LateSteps(d)
  {
    AddLists(qb, d);
    AddFiscals(qb, d);
    AddRules(qb, d);
    AddValidity(qb, d);
    Regroup(old(qb.calls), ListSteps(d), FiscalSteps(d), RuleSteps(d), ValiditySteps(d));
  }

  method ApplyDateFilters(qb: SelectQueryBuilder, d: DateFilters)
    requires qb.Valid()
    modifies qb
    ensures qb.Valid() && qb.calls == old(qb.calls) + DateSteps(d)
  {
    AddEarly(qb, d);
    AddLate(qb, d);
    Join(old(qb.calls), EarlySteps(d), LateSteps(d));
  }

  lemma Join(done: Plan, a: Plan, b: Plan)
    ensures done + a + b == done + (a + b)
  {
  }

  lemma Regroup(done: Plan, a: Plan, b: Plan, c: Plan, d: Plan)
    ensures done + a + b + c + d == done + (a + b + (c + d))
  {
  }

  method AddTypeFilters(qb: SelectQueryBuilder, f: Filters)
    requires qb.Valid()
    modifies qb
    ensures qb.Valid() && qb.calls == old(qb.calls) + TypeSteps(f)
  {
    AddText(qb, f.msgType, IsType);
    AddTypes(qb, f.types, PTypes);
    AddTypes(qb, f.moduleTypes, PModuleTypes);
    AddTypes(qb, f.modulesTypes, PModuleTypes);
    AddTypes(qb, f.categoryTypes, PCategoryTypes);
  }

  method AddRowFilters(qb: SelectQueryBuilder, f: Filters)
    requires qb.Valid()
    modifies qb
    ensures qb.Valid() && qb.calls == old(qb.calls) + RowSteps(f)
  {
    AddText(qb, f.address, IsInvolved);
    AddNumber(qb, f.heightFrom, Height, AtLeast, PHeightFrom);
    AddNumber(qb, f.heightTo, Height, AtMost, PHeightTo);
    AddText(qb, f.denom, HasDenom);
  }

  /** All calls of getMessages, in code order. */
  method BuildQuery(qb: SelectQueryBuilder, f: Filters)
    requires qb.Valid() && qb.calls == []
    modifies qb
    ensures qb.Valid() && qb.calls == PlanOf(f)
  {
    AddTypeFilters(qb, f);
    AddRowFilters(qb, f);
    ApplyDateFilters(qb, f.dates);
    AddNumber(qb, Positive(f.cursor), Height, Below, PCursor);
    assert [] + TypeSteps(f) == TypeSteps(f);
  }

  /**
   The query selects exactly the rows that all filters ask for, for any number of custom ranges;
   but when module and modules both resolve to types, the module filter is not among them. It
   is refused exactly when its date filters are: on a table without a timestamp, like message,
   when there is any; and otherwise when they ask for a time of day or bring an empty list.
   */
  method GetMessages(f: Filters) returns (predicates: seq<Test>, parameters: Params)
    ensures forall r :: Selects(predicates, parameters, r) <==> Wanted(f, Lost(f), r)
    ensures forall r :: Selects(predicates, parameters, r) <==> Meets(f, r)
    ensures forall hasStamp :: Accepts(predicates, parameters, hasStamp) <==> Runnable(f.dates, hasStamp)
  {
    var qb := new SelectQueryBuilder();
    BuildQuery(qb, f);
    forall r
      ensures Selects(qb.predicates, qb.parameters, r) <==> Wanted(f, Lost(f), r)
      ensures Wanted(f, Lost(f), r) <==> Meets(f, r)
    {
      QueryMeansFilters(f, r, true);
      WantedMeansMeets(f, r);
    }
    forall hasStamp ensures Accepts(qb.predicates, qb.parameters, hasStamp) <==> Runnable(f.dates, hasStamp) {
      RefusedIff(f, hasStamp);
      RunnableIff(f.dates, hasStamp);
    }
    return qb.predicates, qb.parameters;
  }
}
