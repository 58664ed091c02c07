/** Build-number floors of calendar versions, and the appcast check that applies them. */
module SparkleFloors {
  import opened Common
  import opened Js

  const LANE_BUILD_MIN := 1_000_000_000
  const LANE_ADOPTION_DATE_KEY := 20260227

  // ----- numbers as text

  predicate IsDigits(s: string) {
    forall i | 0 <= i < |s| :: '0' <= s[i] <= '9'
  }

  /** `Number(text)` of decimal digits. */
  function NumberOf(s: string): nat
    requires IsDigits(s)
  {
    if s == "" then 0 else 10 * NumberOf(s[..|s| - 1]) + (s[|s| - 1] - '0') as nat
  }

  lemma AppendDigit(a: string, b: string)
    requires IsDigits(a) && IsDigits(b) && |b| == 1
    ensures IsDigits(a + b) && NumberOf(a + b) == 10 * NumberOf(a) + NumberOf(b)
  {
    var text := a + b;
    assert text[|text| - 1] == b[0];
    assert text[..|text| - 1] == a;
    OneDigit(b);
  }

  lemma OneDigit(b: string)
    requires IsDigits(b) && |b| == 1
    ensures NumberOf(b) == (b[0] - '0') as nat
  {
    assert b[..0] == "";
  }

  lemma AppendTwo(a: string, b: string)
    requires IsDigits(a) && IsDigits(b) && |b| == 2
    ensures IsDigits(a + b) && NumberOf(a + b) == 100 * NumberOf(a) + NumberOf(b)
  {
    var c, d := b[..1], b[1..];
    assert b == c + d;
    Associate(a, c, d);
    AppendDigit(c, d);
    AppendDigit(a, c);
    AppendDigit(a + c, d);
  }

  lemma DigitIsDigit(d: nat)
    requires d < 10
    ensures '0' <= Digit(d) <= '9' && (Digit(d) - '0') as nat == d
  {
  }

  lemma {:induction false} NumberOfNatText(n: nat)
    ensures IsDigits(NatText(n)) && NumberOf(NatText(n)) == n
    ensures n < 10 ==> |NatText(n)| == 1
    ensures 10 <= n < 100 ==> |NatText(n)| == 2
  {
    DigitIsDigit(n % 10);
    if n < 10 {
      assert NatText(n)[..0] == "";
    } else {
      NumberOfNatText(n / 10);
      assert NatText(n)[..|NatText(n)| - 1] == NatText(n / 10);
    }
  }

  /** `String(n).padStart(2, "0")`. */
  function Pad2(n: nat): string {
    if n < 10 then "0" + NatText(n) else NatText(n)
  }

  lemma NumberOfPad2(n: nat)
    requires n < 100
    ensures IsDigits(Pad2(n)) && |Pad2(n)| == 2 && NumberOf(Pad2(n)) == n
  {
    NumberOfNatText(n);
    if n < 10 {
      AppendDigit("0", NatText(n));
      assert NumberOf("0") == 0 by {
        assert "0"[..0] == "";
      }
    }
  }

  // ----- floors of one version

  /** The part after the date: none, one without a trailing number, or one that ends in a number. */
  datatype Suffix = NoSuffix | NoNumber | Number(n: nat)

  /** A matched calendar version: four digits of year, one or two of month and day. */
  datatype CalVer = CalVer(year: nat, month: nat, day: nat, suffix: Suffix)

  datatype Floors = Floors(dateKey: nat, legacyFloor: nat, laneFloor: nat, lane: nat)

  predicate Matched(v: CalVer) {
    v.year < 10000 && v.month < 100 && v.day < 100
  }

  function Lane(suffix: Suffix): (lane: nat)
    ensures lane <= 90
  {
    match suffix
    case NoSuffix => 90
    case NoNumber => 1
    case Number(n) => if n < 89 then n else 89
  }

  function DateText(v: CalVer): string {
    NatText(v.year) + Pad2(v.month) + Pad2(v.day)
  }

  lemma DateTextNumber(v: CalVer)
    requires Matched(v)
    ensures IsDigits(DateText(v)) && NumberOf(DateText(v)) == v.year * 10000 + v.month * 100 + v.day
  {
    NumberOfNatText(v.year);
    NumberOfPad2(v.month);
    NumberOfPad2(v.day);
    AppendTwo(NatText(v.year), Pad2(v.month));
    AppendTwo(NatText(v.year) + Pad2(v.month), Pad2(v.day));
  }

  lemma FloorTexts(dateKey: nat, lane: nat)
    requires lane < 100
    ensures var text := NatText(dateKey);
            && IsDigits(text + "0") && NumberOf(text + "0") == dateKey * 10
            && IsDigits(text + Pad2(lane)) && NumberOf(text + Pad2(lane)) == dateKey * 100 + lane
  {
    NumberOfNatText(dateKey);
    NumberOfPad2(lane);
    AppendTwo(NatText(dateKey), Pad2(lane));
    assert "0" == NatText(0);
    NumberOfNatText(0);
    AppendDigit(NatText(dateKey), "0");
  }

  /** The floors are the numbers whose text is the date followed by a zero or by the two-digit lane. */
  function SparkleBuildFloors(v: CalVer): (r: Option<Floors>)
    requires Matched(v)
    ensures r.Some? <==> 1 <= v.month <= 12 && 1 <= v.day <= 31
    ensures r.Some? ==>
              var dateKey := v.year * 10000 + v.month * 100 + v.day;
              r.value == Floors(dateKey, dateKey * 10, dateKey * 100 + Lane(v.suffix), Lane(v.suffix))
  {
    if v.month < 1 || v.month > 12 || v.day < 1 || v.day > 31 then None
    else
      DateTextNumber(v);
      var dateKey, lane := NumberOf(DateText(v)), Lane(v.suffix);
      FloorTexts(dateKey, lane);
      Some(Floors(dateKey, NumberOf(NatText(dateKey) + "0"), NumberOf(NatText(dateKey) + Pad2(lane)), lane))
  }

  /** A version without a suffix has lane 90, one whose suffix ends in a number has that number up to 89, and any other
      suffix has lane 1; so of all versions with one date the one without a suffix has the greatest lane floor. */
  lemma LaneMeans(v: CalVer, suffix: Suffix)
    requires Matched(v) && SparkleBuildFloors(v).Some?
    ensures var date := v.year * 10000 + v.month * 100 + v.day;
            SparkleBuildFloors(v).value ==
            match v.suffix
            case NoSuffix => Floors(date, date * 10, date * 100 + 90, 90)
            case NoNumber => Floors(date, date * 10, date * 100 + 1, 1)
            case Number(n) => Floors(date, date * 10, date * 100 + Min(n, 89), Min(n, 89))
    ensures v.suffix == NoSuffix && suffix != NoSuffix ==>
              SparkleBuildFloors(v.(suffix := suffix)).value.laneFloor < SparkleBuildFloors(v).value.laneFloor
  {
  }

  predicate LexLess(a: CalVer, b: CalVer) {
    a.year < b.year || (a.year == b.year &&
      (a.month < b.month || (a.month == b.month &&
        (a.day < b.day || (a.day == b.day && Lane(a.suffix) < Lane(b.suffix))))))
  }

  /** Lane floors are ordered exactly as the versions are: by date, then by lane. */
  lemma LaneFloorMonotone(a: CalVer, b: CalVer)
    requires Matched(a) && Matched(b) && SparkleBuildFloors(a).Some? && SparkleBuildFloors(b).Some?
    ensures SparkleBuildFloors(a).value.laneFloor < SparkleBuildFloors(b).value.laneFloor <==> LexLess(a, b)
  {
  }

  /** Legacy floors lie below the minimum lane build number for every version; lane floors reach it exactly from the
      year 1000 on. */
  lemma FloorsAroundMinimum(v: CalVer)
    requires Matched(v) && SparkleBuildFloors(v).Some?
    ensures SparkleBuildFloors(v).value.legacyFloor < LANE_BUILD_MIN
    ensures LANE_BUILD_MIN <= SparkleBuildFloors(v).value.laneFloor <==> v.year >= 1000
  {
  }

  // ----- the appcast check

  datatype Build = NoVersion | NotNumeric | Numeric(n: nat)

  /** An item as extracted from the feed; `short` is `None` when the short version is missing or is no calendar
      version. */
  datatype Item = Item(title: string, build: Build, short: Option<CalVer>)

  datatype CalItem = CalItem(title: string, build: nat, floors: Floors)

  datatype Problem =
    | NoItems
    | MissingVersion(title: string)
    | NonNumericVersion(title: string)
    | BelowFloor(title: string, build: nat, floor: nat, lane: bool)

  function FormProblem(item: Item): Option<Problem> {
    match item.build
    case NoVersion => Some(MissingVersion(item.title))
    case NotNumeric => Some(NonNumericVersion(item.title))
    case Numeric(_) => None
  }

  predicate MatchedItem(item: Item) {
    item.short.Some? ==> Matched(item.short.value)
  }

  function AsCalItem(item: Item): Option<CalItem> {
    if !item.build.Numeric? || item.short.None? || !Matched(item.short.value)
        || SparkleBuildFloors(item.short.value).None? then None
    else Some(CalItem(item.title, item.build.n, SparkleBuildFloors(item.short.value).value))
  }

  /** The smaller of the built-in adoption date and the dates of the items that already use lane numbers. */
  function AdoptionDateKey(items: seq<CalItem>): nat {
    if items == [] then LANE_ADOPTION_DATE_KEY
    else
      var rest, last := AdoptionDateKey(items[..|items| - 1]), items[|items| - 1];
      if last.build >= LANE_BUILD_MIN then Min(rest, last.floors.dateKey) else rest
  }

  predicate ExpectsLane(adoption: nat, item: CalItem) {
    item.build >= LANE_BUILD_MIN || item.floors.dateKey >= adoption
  }

  function FloorFor(adoption: nat, item: CalItem): nat {
    if ExpectsLane(adoption, item) then item.floors.laneFloor else item.floors.legacyFloor
  }

  function FloorProblem(adoption: nat, item: CalItem): Problem {
    BelowFloor(item.title, item.build, FloorFor(adoption, item), ExpectsLane(adoption, item))
  }

  function FloorProblems(items: seq<CalItem>): seq<Problem> {
    var adoption := AdoptionDateKey(items);
    FilterMap(items, (item: CalItem) => item.build < FloorFor(adoption, item),
        (item: CalItem) => FloorProblem(adoption, item))
  }

  method CollectAppcastErrors(items: seq<Item>) returns (errors: seq<Problem>)
    requires forall item | item in items :: MatchedItem(item)
    ensures errors == (if items == [] then [NoItems] else []) + Collect(items, FormProblem)
            + FloorProblems(Collect(items, AsCalItem))
  {
    errors := if items == [] then [NoItems] else [];
    ghost var first := errors;
    var calver: seq<CalItem> := [];
    assert errors + [] == errors;
    for i := 0 to |items|
      invariant errors == first + Collect(items[..i], FormProblem)
      invariant calver == Collect(items[..i], AsCalItem)
    {
      var item := items[i];
      assert item in items;
      assert items[..i + 1][..i] == items[..i];
      if item.build.NoVersion? {
        errors := errors + [MissingVersion(item.title)];
        continue;
      }
      if item.build.NotNumeric? {
        errors := errors + [NonNumericVersion(item.title)];
        continue;
      }
      if item.short.None? {
        continue;
      }
      var floors := SparkleBuildFloors(item.short.value);
      if floors.None? {
        continue;
      }
      calver := calver + [CalItem(item.title, item.build.n, floors.value)];
    }
    assert items[..|items|] == items;
    var floorErrors := CollectFloorErrors(calver);
    errors := errors + floorErrors;
  }

  method CollectFloorErrors(items: seq<CalItem>) returns (errors: seq<Problem>)
    ensures errors == FloorProblems(items)
  {
    var adoption := LANE_ADOPTION_DATE_KEY;
    for i := 0 to |items|
      invariant adoption == AdoptionDateKey(items[..i])
    {
      assert items[..i + 1][..i] == items[..i];
      if items[i].build >= LANE_BUILD_MIN {
        adoption := Min(adoption, items[i].floors.dateKey);
      }
    }
    assert items[..|items|] == items;
    ghost var below, problem := (item: CalItem) => item.build < FloorFor(adoption, item),
        (item: CalItem) => FloorProblem(adoption, item);
    errors := [];
    for i := 0 to |items|
      invariant errors == FilterMap(items[..i], below, problem)
    {
      assert items[..i + 1][..i] == items[..i];
      var item := items[i];
      var expectLane := item.build >= LANE_BUILD_MIN || item.floors.dateKey >= adoption;
      var floor := if expectLane then item.floors.laneFloor else item.floors.legacyFloor;
      if item.build < floor {
        errors := errors + [BelowFloor(item.title, item.build, floor, expectLane)];
      }
    }
  }

  /** An item is held against a floor exactly when its build is a number and its short version is a calendar version
      with a month and a day; the floor errors see its number and the floors of that version. */
  lemma CalItemIff(items: seq<Item>, c: CalItem)
    ensures c in Collect(items, AsCalItem) <==>
            exists i :: 0 <= i < |items| && HasFloors(items[i], c)
  {
    CollectIff(items, AsCalItem, c);
    forall i | 0 <= i < |items| ensures AsCalItem(items[i]) == Some(c) <==> HasFloors(items[i], c) {
      AsCalItemIff(items[i], c);
    }
  }

  ghost predicate HasFloors(item: Item, c: CalItem) {
    && item.build == Numeric(c.build) && c.title == item.title
    && item.short.Some? && Matched(item.short.value)
    && 1 <= item.short.value.month <= 12 && 1 <= item.short.value.day <= 31
    && SparkleBuildFloors(item.short.value) == Some(c.floors)
  }

  lemma AsCalItemIff(item: Item, c: CalItem)
    ensures AsCalItem(item) == Some(c) <==> HasFloors(item, c)
  {
  }

  /** An item has a form error exactly when its version is missing or no number. */
  lemma FormProblemIff(items: seq<Item>, p: Problem)
    ensures p in Collect(items, FormProblem) <==>
            exists i :: 0 <= i < |items| && IllFormed(items[i], p)
  {
    CollectIff(items, FormProblem, p);
    assert forall i | 0 <= i < |items| :: FormProblem(items[i]) == Some(p) <==> IllFormed(items[i], p);
  }

  predicate IllFormed(item: Item, p: Problem) {
    (item.build == NoVersion && p == MissingVersion(item.title))
    || (item.build == NotNumeric && p == NonNumericVersion(item.title))
  }

  /** The item is below its lane floor although it has a lane number or is dated on or after the adoption date, or
      below its legacy floor although it is neither. */
  predicate Below(adoption: nat, item: CalItem, p: Problem) {
    if item.build >= 1_000_000_000 || item.floors.dateKey >= adoption
      then item.build < item.floors.laneFloor && p == BelowFloor(item.title, item.build, item.floors.laneFloor, true)
    else item.build < item.floors.legacyFloor && p == BelowFloor(item.title, item.build, item.floors.legacyFloor, false)
  }

  lemma FloorProblemIff(items: seq<CalItem>, p: Problem)
    ensures p in FloorProblems(items) <==> exists i :: 0 <= i < |items| && Below(AdoptionDateKey(items), items[i], p)
  {
    var adoption := AdoptionDateKey(items);
    var below, problem := (item: CalItem) => item.build < FloorFor(adoption, item),
        (item: CalItem) => FloorProblem(adoption, item);
    FilterMapIff(items, below, problem, p);
    assert forall i | 0 <= i < |items| :: below(items[i]) && problem(items[i]) == p <==> Below(adoption, items[i], p);
  }

  /** The floor errors do not depend on the order of the items, as a multiset. */
  lemma FloorProblemsReorder(xs: seq<CalItem>, ys: seq<CalItem>)
    requires multiset(xs) == multiset(ys)
    ensures multiset(FloorProblems(xs)) == multiset(FloorProblems(ys))
  {
    AdoptionIsMinimum(xs);
    AdoptionIsMinimum(ys);
    assert forall x :: x in xs <==> x in multiset(xs);
    assert forall y :: y in ys <==> y in multiset(ys);
    var adoption := AdoptionDateKey(xs);
    FilterMapReorder(xs, ys, (item: CalItem) => item.build < FloorFor(adoption, item),
        (item: CalItem) => FloorProblem(adoption, item));
  }

  /** The adoption date is the least of the built-in date and the dates of the lane-numbered items. */
  lemma {:induction false} AdoptionIsMinimum(items: seq<CalItem>)
    ensures AdoptionDateKey(items) <= 20260227
    ensures forall item | item in items && item.build >= 1_000_000_000 :: AdoptionDateKey(items) <= item.floors.dateKey
    ensures AdoptionDateKey(items) == 20260227 ||
            exists item :: item in items && item.build >= 1_000_000_000
                && AdoptionDateKey(items) == item.floors.dateKey
  {
    if items != [] {
      AdoptionIsMinimum(items[..|items| - 1]);
      assert forall item :: item in items <==> item in items[..|items| - 1] || item == items[|items| - 1];
    }
  }

  /** The item's floors are those of a calendar version from the year 1000 on. */
  ghost predicate Modern(item: CalItem) {
    exists v :: Matched(v) && v.year >= 1000 && SparkleBuildFloors(v) == Some(item.floors)
  }

  /** No floor errors mean exactly that every item meets its floor. */
  lemma NoFloorProblemsIff(items: seq<CalItem>)
    ensures FloorProblems(items) == []
            <==> forall item | item in items :: item.build >= FloorFor(AdoptionDateKey(items), item)
  {
    var adoption := AdoptionDateKey(items);
    var below, problem := (item: CalItem) => item.build < FloorFor(adoption, item),
        (item: CalItem) => FloorProblem(adoption, item);
    if FloorProblems(items) != [] {
      var p := FloorProblems(items)[0];
      FilterMapIff(items, below, problem, p);
      var i :| 0 <= i < |items| && below(items[i]) && problem(items[i]) == p;
      assert items[i] in items;
    }
    forall item | item in items && item.build < FloorFor(adoption, item) ensures FloorProblems(items) != [] {
      var i :| 0 <= i < |items| && items[i] == item;
      FilterMapIff(items, below, problem, FloorProblem(adoption, item));
    }
  }

  /** Without floor errors, every item dated on or after a lane-numbered item, or on or after the built-in adoption
      date, has a lane number itself: at least the minimum and at least its own lane floor. */
  lemma LaneNumbersSpread(items: seq<CalItem>, first: CalItem, item: CalItem)
    requires FloorProblems(items) == [] && first in items && item in items && Modern(item)
    requires (first.build >= LANE_BUILD_MIN && item.floors.dateKey >= first.floors.dateKey)
             || item.floors.dateKey >= LANE_ADOPTION_DATE_KEY
    ensures item.build >= item.floors.laneFloor >= LANE_BUILD_MIN
  {
    NoFloorProblemsIff(items);
    AdoptionIsMinimum(items);
    var v :| Matched(v) && v.year >= 1000 && SparkleBuildFloors(v) == Some(item.floors);
    FloorsAroundMinimum(v);
  }
}
