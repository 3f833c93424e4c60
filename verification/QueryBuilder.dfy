/**
 A query builder that keeps one map of named parameters for all its predicates: andWhere
 appends a predicate and merges its parameters into the map, where a name that is used again
 overwrites the value it had. The predicates read the map when the query is executed, so a
 predicate means what its filter meant only if no later filter has taken its names.
 */
module QueryBuilder {
  import opened Wrappers

  // ---- Parameter names ------------------------------------------------------------------

  datatype FixedName =
    | PType | PTypes | PModuleTypes | PCategoryTypes | PAddress | PHeightFrom | PHeightTo | PDenom
    | PDateFrom | PDateTo | PExactDateStart | PExactDateEnd | PYear | PMonth | PDay | PDayOfWeek
    | PHour | PMinute | PSecond | PTimeFrom | PTimeTo | PRelativeDate | PWeekdays | PMonths | PYears
    | PQuarters | PSeasonMonths | PFiscalYearStart | PFiscalYearEnd | PQuarterMonths | POffsetDate | PCursor

  /** The names written out in the source, and the two families generated per custom range. */
  datatype Name = Fixed(name: FixedName) | RangeStart(index: nat) | RangeEnd(index: nat)

  function RenderFixed(n: FixedName): string {
    match n
    case PType => "type"
    case PTypes => "types"
    case PModuleTypes => "moduleTypes"
    case PCategoryTypes => "categoryTypes"
    case PAddress => "address"
    case PHeightFrom => "height_from"
    case PHeightTo => "height_to"
    case PDenom => "denom"
    case PDateFrom => "dateFrom"
    case PDateTo => "dateTo"
    case PExactDateStart => "exactDateStart"
    case PExactDateEnd => "exactDateEnd"
    case PYear => "year"
    case PMonth => "month"
    case PDay => "day"
    case PDayOfWeek => "dayOfWeek"
    case PHour => "hour"
    case PMinute => "minute"
    case PSecond => "second"
    case PTimeFrom => "timeFrom"
    case PTimeTo => "timeTo"
    case PRelativeDate => "relativeDate"
    case PWeekdays => "weekdays"
    case PMonths => "months"
    case PYears => "years"
    case PQuarters => "quarters"
    case PSeasonMonths => "seasonMonths"
    case PFiscalYearStart => "fiscalYearStart"
    case PFiscalYearEnd => "fiscalYearEnd"
    case PQuarterMonths => "quarterMonths"
    case POffsetDate => "offsetDate"
    case PCursor => "cursor"
  }

  const DIGITS := "0123456789"

  /** A template literal's rendering of an index. */
  function Decimal(n: nat): string {
    if n < 10 then [DIGITS[n]] else Decimal(n / 10) + [DIGITS[n % 10]]
  }

  function Render(n: Name): string {
    match n
    case Fixed(f) => RenderFixed(f)
    case RangeStart(i) => "customRangeStart" + Decimal(i)
    case RangeEnd(i) => "customRangeEnd" + Decimal(i)
  }

  /** Length, first and second character: enough to tell the fixed names apart. */
  function KeyOf(n: FixedName): (nat, char, char) {
    match n
    case PType => (4, 't', 'y')
    case PTypes => (5, 't', 'y')
    case PModuleTypes => (11, 'm', 'o')
    case PCategoryTypes => (13, 'c', 'a')
    case PAddress => (7, 'a', 'd')
    case PHeightFrom => (11, 'h', 'e')
    case PHeightTo => (9, 'h', 'e')
    case PDenom => (5, 'd', 'e')
    case PDateFrom => (8, 'd', 'a')
    case PDateTo => (6, 'd', 'a')
    case PExactDateStart => (14, 'e', 'x')
    case PExactDateEnd => (12, 'e', 'x')
    case PYear => (4, 'y', 'e')
    case PMonth => (5, 'm', 'o')
    case PDay => (3, 'd', 'a')
    case PDayOfWeek => (9, 'd', 'a')
    case PHour => (4, 'h', 'o')
    case PMinute => (6, 'm', 'i')
    case PSecond => (6, 's', 'e')
    case PTimeFrom => (8, 't', 'i')
    case PTimeTo => (6, 't', 'i')
    case PRelativeDate => (12, 'r', 'e')
    case PWeekdays => (8, 'w', 'e')
    case PMonths => (6, 'm', 'o')
    case PYears => (5, 'y', 'e')
    case PQuarters => (8, 'q', 'u')
    case PSeasonMonths => (12, 's', 'e')
    case PFiscalYearStart => (15, 'f', 'i')
    case PFiscalYearEnd => (13, 'f', 'i')
    case PQuarterMonths => (13, 'q', 'u')
    case POffsetDate => (10, 'o', 'f')
    case PCursor => (6, 'c', 'u')
  }

  lemma KeysAreRight(n: FixedName)
    ensures var s := RenderFixed(n); |s| >= 3 && (|s|, s[0], s[1]) == KeyOf(n) && s[..3] != "cus"
  {
    var s := RenderFixed(n);
    assert s[0] == KeyOf(n).1;
    assert n.PCursor? ==> s[2] == 'r';
    assert s[..3][0] == s[0] && s[..3][1] == s[1] && s[..3][2] == s[2];
  }

  lemma KeysAreInjective(a: FixedName, b: FixedName)
    requires KeyOf(a) == KeyOf(b)
    ensures a == b
  {
  }

  lemma {:induction false} DecimalInjective(m: nat, n: nat)
    requires Decimal(m) == Decimal(n)
    ensures m == n
  {
    assert forall i, j :: 0 <= i < j < 10 ==> DIGITS[i] != DIGITS[j];
    var a, b := Decimal(m), Decimal(n);
    DecimalNonEmpty(m / 10);
    DecimalNonEmpty(n / 10);
    assert a[|a| - 1] == b[|b| - 1];
    if m >= 10 && n >= 10 {
      assert a[..|a| - 1] == Decimal(m / 10) && b[..|b| - 1] == Decimal(n / 10);
      DecimalInjective(m / 10, n / 10);
    }
  }

  lemma DecimalNonEmpty(n: nat)
    ensures |Decimal(n)| >= 1
  {
  }

  lemma FixedIsNotGenerated(f: FixedName, i: nat)
    ensures RenderFixed(f) != Render(RangeStart(i)) && RenderFixed(f) != Render(RangeEnd(i))
  {
    KeysAreRight(f);
    assert Render(RangeStart(i))[..3] == "cus" && Render(RangeEnd(i))[..3] == "cus";
  }

  lemma StartIsNotEnd(i: nat, j: nat)
    ensures Render(RangeStart(i)) != Render(RangeEnd(j))
  {
    assert Render(RangeStart(i))[11] == 'S' && Render(RangeEnd(j))[11] == 'E';
  }

  lemma GeneratedInjective(i: nat, j: nat)
    ensures Render(RangeStart(i)) == Render(RangeStart(j)) ==> i == j
    ensures Render(RangeEnd(i)) == Render(RangeEnd(j)) ==> i == j
  {
    assert Render(RangeStart(i))[16..] == Decimal(i) && Render(RangeStart(j))[16..] == Decimal(j);
    assert Render(RangeEnd(i))[14..] == Decimal(i) && Render(RangeEnd(j))[14..] == Decimal(j);
    if Decimal(i) == Decimal(j) {
      DecimalInjective(i, j);
    }
  }

  /** Different names are different strings, so the map may be keyed by either. */
  lemma NamesRenderDistinct(a: Name, b: Name)
    requires Render(a) == Render(b)
    ensures a == b
  {
    match (a, b)
    case (Fixed(f), Fixed(g)) =>
      KeysAreRight(f);
      KeysAreRight(g);
      KeysAreInjective(f, g);
    case (Fixed(f), RangeStart(i)) => FixedIsNotGenerated(f, i);
    case (Fixed(f), RangeEnd(i)) => FixedIsNotGenerated(f, i);
    case (RangeStart(i), Fixed(f)) => FixedIsNotGenerated(f, i);
    case (RangeEnd(i), Fixed(f)) => FixedIsNotGenerated(f, i);
    case (RangeStart(i), RangeEnd(j)) => StartIsNotEnd(i, j);
    case (RangeEnd(i), RangeStart(j)) => StartIsNotEnd(j, i);
    case (RangeStart(i), RangeStart(j)) => GeneratedInjective(i, j);
    case (RangeEnd(i), RangeEnd(j)) => GeneratedInjective(i, j);
  }

  // ---- Rows and predicates --------------------------------------------------------------

  datatype Value = Num(n: int) | Text(s: string) | Nums(ns: seq<int>) | Texts(ts: seq<string>)

  /** A timestamp with the parts that EXTRACT and TIME take from it. */
  datatype Stamp = Stamp(instant: int, year: int, month: int, day: int, dow: int, hour: int, minute: int, second: int,
                         quarter: int, timeOfDay: int)

  datatype Row = Row(msgType: string, height: int, valueText: string, addresses: seq<string>, stamp: Option<Stamp>)

  datatype Column = Height | Instant | Year | Month | Day | Dow | Hour | Minute | Second | Quarter | TimeOfDay

  /** NULL is None. */
  function At(r: Row, c: Column): Option<int> {
    if c.Height? then Some(r.height)
    else if r.stamp.None? then None
    else
      var t := r.stamp.value;
      Some(match c
           case Instant => t.instant
           case Year => t.year
           case Month => t.month
           case Day => t.day
           case Dow => t.dow
           case Hour => t.hour
           case Minute => t.minute
           case Second => t.second
           case Quarter => t.quarter
           case TimeOfDay => t.timeOfDay
           case Height => r.height)
  }

  datatype Order = Equal | AtLeast | AtMost | Below

  predicate Ordered(x: int, o: Order, y: int) {
    match o
    case Equal => x == y
    case AtLeast => x >= y
    case AtMost => x <= y
    case Below => x < y
  }

  /** Predicates without parameters. */
  datatype Literal = NotWeekend | FourthYear | NotPlainCentury | NotNull | NotEpoch

  datatype Test =
    | Compare(column: Column, order: Order, p: Name)      // column >= :p
    | OneOf(column: Column, p: Name)                      // column IN (:...p)
    | TypeIs(p: Name)                                     // message.type = :p
    | TypeOneOf(p: Name)                                  // message.type IN (:...p)
    | Involves(p: Name)                                   // :p = ANY(involved addresses)
    | ValueLike(p: Name)                                  // value LIKE :p
    | InAnyRange(count: nat)                              // (start0 <= t AND t <= end0) OR ...
    | Plain(literal: Literal)

  /** SQL LIKE, without escapes. */
  predicate Like(s: string, pattern: string)
    decreases |pattern|, |s|
  {
    if pattern == [] then s == []
    else if pattern[0] == '%' then Like(s, pattern[1..]) || (s != [] && Like(s[1..], pattern))
    else s != [] && (pattern[0] == '_' || pattern[0] == s[0]) && Like(s[1..], pattern[1..])
  }

  type Params = map<Name, Value>

  function NumOf(ps: Params, n: Name): Option<int> {
    if n in ps && ps[n].Num? then Some(ps[n].n) else None
  }

  predicate Compares(x: Option<int>, o: Order, y: Option<int>) {
    x.Some? && y.Some? && Ordered(x.value, o, y.value)
  }

  /** The predicate is true of the row; false and NULL both leave the row out. */
  predicate Eval(t: Test, ps: Params, r: Row) {
    match t
    case Compare(c, o, p) => Compares(At(r, c), o, NumOf(ps, p))
    case OneOf(c, p) => p in ps && ps[p].Nums? && At(r, c).Some? && At(r, c).value in ps[p].ns
    case TypeIs(p) => p in ps && ps[p] == Text(r.msgType)
    case TypeOneOf(p) => p in ps && ps[p].Texts? && r.msgType in ps[p].ts
    case Involves(p) => p in ps && ps[p].Text? && ps[p].s in r.addresses
    case ValueLike(p) => p in ps && ps[p].Text? && Like(r.valueText, ps[p].s)
    case InAnyRange(count) => exists i :: 0 <= i < count && InRange(ps, r, i)
    case Plain(l) => r.stamp.Some? && HoldsLiteral(l, r.stamp.value)
  }

  predicate InRange(ps: Params, r: Row, i: nat) {
    Compares(At(r, Instant), AtLeast, NumOf(ps, RangeStart(i)))
      && Compares(At(r, Instant), AtMost, NumOf(ps, RangeEnd(i)))
  }

  predicate HoldsLiteral(l: Literal, t: Stamp) {
    match l
    case NotWeekend => t.dow !in {0, 6}
    case FourthYear => t.year % 4 == 0
    case NotPlainCentury => t.year % 100 != 0 || t.year % 400 == 0
    case NotNull => true
    case NotEpoch => t.instant != 0
  }

  ghost predicate Reads(t: Test, n: Name) {
    match t
    case InAnyRange(count) => (n.RangeStart? || n.RangeEnd?) && n.index < count
    case Plain(_) => false
    case _ => n == t.p
  }

  /**
   The database accepts the predicate: no empty list after IN, no call of TIME, which Postgres
   does not have, and no timestamp asked of a table without one.
   */
  predicate Renders(t: Test, ps: Params, hasStamp: bool) {
    match t
    case Compare(c, _, _) => c == Height || (hasStamp && c != TimeOfDay)
    case OneOf(c, p) => (c == Height || hasStamp) && !(p in ps && ps[p] == Nums([]))
    case TypeOneOf(p) => !(p in ps && ps[p] == Texts([]))
    case InAnyRange(_) => hasStamp
    case Plain(_) => hasStamp
    case _ => true
  }

  lemma EvalReadsItsNames(t: Test, ps: Params, qs: Params, r: Row, hasStamp: bool)
    requires forall n :: Reads(t, n) ==> (n in ps <==> n in qs) && (n in ps ==> ps[n] == qs[n])
    ensures Eval(t, ps, r) <==> Eval(t, qs, r)
    ensures Renders(t, ps, hasStamp) <==> Renders(t, qs, hasStamp)
  {
    match t
    case InAnyRange(count) =>
      forall i | 0 <= i < count ensures InRange(ps, r, i) <==> InRange(qs, r, i) {
        assert Reads(t, RangeStart(i)) && Reads(t, RangeEnd(i));
      }
    case Plain(_) =>
    case _ => assert Reads(t, t.p);
  }

  // ---- The builder ----------------------------------------------------------------------

  /** One call of andWhere: the kind of predicate and the parameter it brings. */
  datatype Step =
    | CompareStep(column: Column, order: Order, p: FixedName, number: int)
    | OneOfStep(column: Column, p: FixedName, numbers: seq<int>)
    | TypeStep(p: FixedName, text: string)
    | TypeOneOfStep(p: FixedName, texts: seq<string>)
    | InvolvesStep(p: FixedName, text: string)
    | LikeStep(p: FixedName, text: string)
    | RangesStep(ranges: seq<(int, int)>)
    | PlainStep(literal: Literal)
  {
    function Predicate(): Test {
      match this
      case CompareStep(c, o, p, _) => Compare(c, o, Fixed(p))
      case OneOfStep(c, p, _) => OneOf(c, Fixed(p))
      case TypeStep(p, _) => TypeIs(Fixed(p))
      case TypeOneOfStep(p, _) => TypeOneOf(Fixed(p))
      case InvolvesStep(p, _) => Involves(Fixed(p))
      case LikeStep(p, _) => ValueLike(Fixed(p))
      case RangesStep(ranges) => InAnyRange(|ranges|)
      case PlainStep(l) => Plain(l)
    }

    function Binds(): Params {
      match this
      case CompareStep(_, _, p, x) => map[Fixed(p) := Num(x)]
      case OneOfStep(_, p, xs) => map[Fixed(p) := Nums(xs)]
      case TypeStep(p, s) => map[Fixed(p) := Text(s)]
      case TypeOneOfStep(p, ts) => map[Fixed(p) := Texts(ts)]
      case InvolvesStep(p, s) => map[Fixed(p) := Text(s)]
      case LikeStep(p, s) => map[Fixed(p) := Text(s)]
      case RangesStep(ranges) => RangeParams(ranges, |ranges|)
      case PlainStep(_) => map[]
    }

    /** The predicate, taken by itself, is true of the row. */
    predicate Holds(r: Row) {
      Eval(Predicate(), Binds(), r)
    }
  }

  /** The parameters once the first n ranges have set customRangeStart0, customRangeEnd0, and so on. */
  function WithRanges(ps: Params, ranges: seq<(int, int)>, n: nat): Params
    requires n <= |ranges|
  {
    if n == 0 then ps
    else
      var (start, end) := ranges[n - 1];
      WithRanges(ps, ranges, n - 1)[RangeStart(n - 1) := Num(start)][RangeEnd(n - 1) := Num(end)]
  }

  function RangeParams(ranges: seq<(int, int)>, n: nat): Params
    requires n <= |ranges|
  {
    WithRanges(map[], ranges, n)
  }

  lemma {:induction false} RangeParamsAre(ranges: seq<(int, int)>, n: nat)
    requires n <= |ranges|
    ensures var ps := RangeParams(ranges, n);
            && (forall name :: name in ps <==> (name.RangeStart? || name.RangeEnd?) && name.index < n)
            && (forall i: nat :: i < n ==> ps[RangeStart(i)] == Num(ranges[i].0) && ps[RangeEnd(i)] == Num(ranges[i].1))
  {
    if n > 0 {
      RangeParamsAre(ranges, n - 1);
    }
  }

  // ---- What one call asks -----------------------------------------------------------------

  predicate Within(range: (int, int), r: Row) {
    r.stamp.Some? && range.0 <= r.stamp.value.instant <= range.1
  }

  /** What a call asks of a row, in terms of its own value, without names or parameters. */
  predicate Asks(s: Step, r: Row) {
    match s
    case CompareStep(c, o, _, x) => At(r, c).Some? && Ordered(At(r, c).value, o, x)
    case OneOfStep(c, _, xs) => At(r, c).Some? && At(r, c).value in xs
    case TypeStep(_, text) => r.msgType == text
    case TypeOneOfStep(_, texts) => r.msgType in texts
    case InvolvesStep(_, text) => text in r.addresses
    case LikeStep(_, text) => Like(r.valueText, text)
    case RangesStep(ranges) => exists i :: 0 <= i < |ranges| && Within(ranges[i], r)
    case PlainStep(l) => r.stamp.Some? && HoldsLiteral(l, r.stamp.value)
  }

  /** The database accepts the call's predicate. */
  predicate CanRun(s: Step, hasStamp: bool) {
    match s
    case CompareStep(c, _, _, _) => c == Height || (hasStamp && c != TimeOfDay)
    case OneOfStep(c, _, xs) => (c == Height || hasStamp) && xs != []
    case TypeOneOfStep(_, texts) => texts != []
    case RangesStep(_) => hasStamp
    case PlainStep(_) => hasStamp
    case _ => true
  }

  lemma OneRangeAsks(ranges: seq<(int, int)>, r: Row, i: nat)
    requires i < |ranges|
    ensures InRange(RangeParams(ranges, |ranges|), r, i) <==> Within(ranges[i], r)
  {
    RangeParamsAre(ranges, |ranges|);
  }

  /** The predicate of a call, read with the parameters of that call, asks what the call asks. */
  lemma HoldsIffAsks(s: Step, r: Row)
    ensures s.Holds(r) <==> Asks(s, r)
  {
    if s.RangesStep? {
      forall i | 0 <= i < |s.ranges|
        ensures InRange(RangeParams(s.ranges, |s.ranges|), r, i) <==> Within(s.ranges[i], r)
      {
        OneRangeAsks(s.ranges, r, i);
      }
    }
  }

  lemma RendersIffCanRun(s: Step, hasStamp: bool)
    ensures Renders(s.Predicate(), s.Binds(), hasStamp) <==> CanRun(s, hasStamp)
  {
  }

  // ---- Sequences of calls -----------------------------------------------------------------

  /** The andWhere calls of a function, in code order; None is a call whose filter is not given. */
  type Plan = seq<Option<Step>>

  predicate Selects(predicates: seq<Test>, ps: Params, r: Row) {
    forall i :: 0 <= i < |predicates| ==> Eval(predicates[i], ps, r)
  }

  predicate Accepts(predicates: seq<Test>, ps: Params, hasStamp: bool) {
    forall i :: 0 <= i < |predicates| ==> Renders(predicates[i], ps, hasStamp)
  }

  function Predicates(plan: Plan): seq<Test> {
    if plan == [] then []
    else
      var s := plan[|plan| - 1];
      Predicates(plan[..|plan| - 1]) + if s.Some? then [s.value.Predicate()] else []
  }

  function Parameters(plan: Plan): Params {
    if plan == [] then map[]
    else
      var s := plan[|plan| - 1];
      Parameters(plan[..|plan| - 1]) + if s.Some? then s.value.Binds() else map[]
  }

  lemma PlanStep(plan: Plan, s: Option<Step>)
    ensures Predicates(plan + [s]) == if s.Some? then Predicates(plan) + [s.value.Predicate()] else Predicates(plan)
    ensures Parameters(plan + [s]) == if s.Some? then Parameters(plan) + s.value.Binds() else Parameters(plan)
  {
    assert (plan + [s])[..|plan|] == plan;
  }

  class SelectQueryBuilder {
    var predicates: seq<Test>
    var parameters: Params
    ghost var calls: Plan     // the filters handled so far

    ghost predicate Valid()
      reads this
    {
      predicates == Predicates(calls) && parameters == Parameters(calls)
    }

    constructor ()
      ensures Valid() && calls == []
    {
      predicates, parameters, calls := [], map[], [];
    }

    method AndWhere(test: Test, binds: Params)
      modifies this`predicates, this`parameters
      ensures predicates == old(predicates) + [test]
      ensures parameters == old(parameters) + binds
    {
      predicates := predicates + [test];
      parameters := parameters + binds;
    }

    method SetParameter(name: Name, value: Value)
      modifies this`parameters
      ensures parameters == old(parameters)[name := value]
    {
      parameters := parameters[name := value];
    }
  }

  // ---- What a built query means ---------------------------------------------------------

  /** Every given call asks it of the row; the places in skip are left out. */
  ghost predicate EachAsks(plan: Plan, skip: set<nat>, r: Row) {
    forall i :: 0 <= i < |plan| && i !in skip && plan[i].Some? ==> Asks(plan[i].value, r)
  }

  ghost predicate EachCanRun(plan: Plan, skip: set<nat>, hasStamp: bool) {
    forall i :: 0 <= i < |plan| && i !in skip && plan[i].Some? ==> CanRun(plan[i].value, hasStamp)
  }

  /** Every given predicate is true of the row under one map of parameters. */
  ghost predicate EachSelects(plan: Plan, ps: Params, r: Row) {
    forall i :: 0 <= i < |plan| && plan[i].Some? ==> Eval(plan[i].value.Predicate(), ps, r)
  }

  ghost predicate EachRenders(plan: Plan, ps: Params, hasStamp: bool) {
    forall i :: 0 <= i < |plan| && plan[i].Some? ==> Renders(plan[i].value.Predicate(), ps, hasStamp)
  }

  lemma {:induction false} SelectsEach(plan: Plan, ps: Params, r: Row)
    ensures Selects(Predicates(plan), ps, r) <==> EachSelects(plan, ps, r)
  {
    if plan != [] {
      var n := |plan| - 1;
      SelectsEach(plan[..n], ps, r);
      var before, after := Predicates(plan[..n]), Predicates(plan);
      assert forall i :: 0 <= i < |before| ==> after[i] == before[i];
      assert plan[n].Some? ==> after[|before|] == plan[n].value.Predicate();
    }
  }

  lemma {:induction false} AcceptsEach(plan: Plan, ps: Params, hasStamp: bool)
    ensures Accepts(Predicates(plan), ps, hasStamp) <==> EachRenders(plan, ps, hasStamp)
  {
    if plan != [] {
      var n := |plan| - 1;
      AcceptsEach(plan[..n], ps, hasStamp);
      var before, after := Predicates(plan[..n]), Predicates(plan);
      assert forall i :: 0 <= i < |before| ==> after[i] == before[i];
      assert plan[n].Some? ==> after[|before|] == plan[n].value.Predicate();
    }
  }

  /** No call after i binds a name that call i binds. */
  ghost predicate Undisturbed(plan: Plan, i: nat)
    requires i < |plan| && plan[i].Some?
  {
    forall j, name :: i < j < |plan| && plan[j].Some? && name in plan[i].value.Binds()
      ==> name !in plan[j].value.Binds()
  }

  /** A predicate reads the names that come with it, and no others. */
  lemma StepIsClosed(s: Step, n: Name)
    ensures Reads(s.Predicate(), n) <==> n in s.Binds()
  {
    match s
    case RangesStep(ranges) => RangeParamsAre(ranges, |ranges|);
    case _ =>
  }

  lemma {:induction false} ParametersKeep(plan: Plan, i: nat, name: Name)
    requires i < |plan| && plan[i].Some? && name in plan[i].value.Binds() && Undisturbed(plan, i)
    ensures name in Parameters(plan) && Parameters(plan)[name] == plan[i].value.Binds()[name]
  {
    var n := |plan| - 1;
    if i < n {
      assert forall j :: 0 <= j < n ==> plan[..n][j] == plan[j];
      ParametersKeep(plan[..n], i, name);
    }
  }

  /** An undisturbed predicate means, in the built query, what its call asks. */
  lemma UndisturbedMeansItself(plan: Plan, i: nat, r: Row, hasStamp: bool)
    requires i < |plan| && plan[i].Some? && Undisturbed(plan, i)
    ensures Eval(plan[i].value.Predicate(), Parameters(plan), r) <==> Asks(plan[i].value, r)
    ensures Renders(plan[i].value.Predicate(), Parameters(plan), hasStamp) <==> CanRun(plan[i].value, hasStamp)
  {
    var s := plan[i].value;
    forall name | Reads(s.Predicate(), name)
      ensures name in s.Binds() && name in Parameters(plan) && Parameters(plan)[name] == s.Binds()[name]
    {
      StepIsClosed(s, name);
      ParametersKeep(plan, i, name);
    }
    EvalReadsItsNames(s.Predicate(), Parameters(plan), s.Binds(), r, hasStamp);
    HoldsIffAsks(s, r);
    RendersIffCanRun(s, hasStamp);
  }

  /** A later call, not itself lost, brings the same predicate. */
  ghost predicate RepeatedLater(plan: Plan, lost: set<nat>, i: nat) {
    exists j :: i < j < |plan| && j !in lost && plan[i].Some? && plan[j].Some?
      && plan[i].value.Predicate() == plan[j].value.Predicate()
  }

  /**
   The built query is the conjunction of what its calls ask, but for the places in lost: those
   whose predicate is repeated, with the same name, by a later call that nothing disturbs. And
   the database accepts it exactly when it accepts the others one by one.
   */
  lemma QueryIsConjunction(plan: Plan, lost: set<nat>, r: Row, hasStamp: bool)
    requires forall i :: 0 <= i < |plan| && plan[i].Some? && i !in lost ==> Undisturbed(plan, i)
    requires forall i :: i in lost ==> RepeatedLater(plan, lost, i)
    ensures Selects(Predicates(plan), Parameters(plan), r) <==> EachAsks(plan, lost, r)
    ensures Accepts(Predicates(plan), Parameters(plan), hasStamp) <==> EachCanRun(plan, lost, hasStamp)
  {
    SelectsEach(plan, Parameters(plan), r);
    AcceptsEach(plan, Parameters(plan), hasStamp);
    forall i | 0 <= i < |plan| && plan[i].Some? && i !in lost
      ensures Eval(plan[i].value.Predicate(), Parameters(plan), r) <==> Asks(plan[i].value, r)
      ensures Renders(plan[i].value.Predicate(), Parameters(plan), hasStamp) <==> CanRun(plan[i].value, hasStamp)
    {
      UndisturbedMeansItself(plan, i, r, hasStamp);
    }
    forall i | i in lost
      ensures i < |plan| && plan[i].Some? && EachAsks(plan, lost, r)
              ==> Eval(plan[i].value.Predicate(), Parameters(plan), r)
      ensures i < |plan| && plan[i].Some? && EachCanRun(plan, lost, hasStamp)
              ==> Renders(plan[i].value.Predicate(), Parameters(plan), hasStamp)
    {
      assert RepeatedLater(plan, lost, i);
    }
  }

  // ---- What LIKE means ----------------------------------------------------------------------

  ghost predicate HasPart(s: string, part: string) {
    exists i :: 0 <= i <= |s| && part <= s[i..]
  }

  predicate NoWildcards(s: string) {
    forall i :: 0 <= i < |s| ==> s[i] != '%' && s[i] != '_'
  }

  /** A pattern that ends with % matches what begins with the rest. */
  lemma {:induction false} LikePrefix(s: string, part: string)
    requires NoWildcards(part)
    ensures Like(s, part + "%") <==> part <= s
  {
    if part == [] {
      LikeAll(s);
      assert part + "%" == "%";
    } else {
      assert (part + "%")[0] == part[0] && (part + "%")[1..] == part[1..] + "%";
      if s != [] {
        LikePrefix(s[1..], part[1..]);
        assert part <= s <==> part[0] == s[0] && part[1..] <= s[1..];
      }
    }
  }

  lemma {:induction false} LikeAll(s: string)
    ensures Like(s, "%")
  {
    assert "%"[1..] == [];
    if s != [] {
      LikeAll(s[1..]);
    }
  }

  /** A text between two % is found wherever it stands. */
  lemma {:induction false} LikeMeansHasPart(s: string, part: string)
    requires NoWildcards(part)
    ensures Like(s, "%" + part + "%") <==> HasPart(s, part)
  {
    var pattern := "%" + part + "%";
    assert pattern[0] == '%' && pattern[1..] == part + "%";
    LikePrefix(s, part);
    assert s[0..] == s;
    if s != [] {
      LikeMeansHasPart(s[1..], part);
      if HasPart(s[1..], part) {
        var i :| 0 <= i <= |s[1..]| && part <= s[1..][i..];
        assert s[1..][i..] == s[i + 1..];
      }
      if i :| 0 < i <= |s| && part <= s[i..] {
        assert s[1..][i - 1..] == s[i..];
      }
    }
  }
}
