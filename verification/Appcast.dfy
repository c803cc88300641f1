/** Build numbers of calendar versions, and the release check's rules for the appcast. */
module Appcast {
  import opened JsText
  import opened Options
  import opened Sorting

  // ----- decimal numerals

  predicate IsDigit(c: char) {
    '0' <= c <= '9'
  }

  predicate IsDigits(s: string) {
    forall i :: 0 <= i < |s| ==> IsDigit(s[i])
  }

  /** `Number(s)` and `Number.parseInt(s, 10)` for a string of digits */
  function Number(s: string): nat
    requires IsDigits(s)
  {
    if s == "" then 0 else 10 * Number(s[..|s| - 1]) + (s[|s| - 1] - '0') as nat
  }

  function Digit(d: nat): char
    requires d < 10
  {
    '0' + d as char
  }

  /** `String(n)` */
  function Decimal(n: nat): (s: string)
    ensures IsDigits(s) && Number(s) == n && s != ""
    ensures n >= 10 ==> |s| >= 2
  {
    if n < 10 then assert Number([Digit(n)]) == n by { assert [Digit(n)][..0] == ""; } [Digit(n)]
    else
      var s := Decimal(n / 10) + [Digit(n % 10)];
      assert s[..|s| - 1] == Decimal(n / 10);
      s
  }

  /** `String(n).padStart(2, "0")` */
  function Pad2(n: nat): string {
    var s := Decimal(n);
    if |s| < 2 then "0" + s else s
  }

  function Pow10(k: nat): nat {
    if k == 0 then 1 else 10 * Pow10(k - 1)
  }

  lemma {:induction false} NumberAppend(a: string, b: string)
    requires IsDigits(a) && IsDigits(b)
    ensures IsDigits(a + b) && Number(a + b) == Number(a) * Pow10(|b|) + Number(b)
    decreases |b|
  {
    if b == "" {
      assert a + b == a;
    } else {
      var front := b[..|b| - 1];
      NumberAppend(a, front);
      assert (a + b)[..|a + b| - 1] == a + front;
      assert 10 * (Number(a) * Pow10(|front|)) == Number(a) * Pow10(|b|);
    }
  }

  lemma {:induction false} NumberPad2(a: string, n: nat)
    requires IsDigits(a) && n < 100
    ensures IsDigits(a + Pad2(n)) && Number(a + Pad2(n)) == 100 * Number(a) + n
    ensures |Pad2(n)| == 2
  {
    TwoDigits(n);
    NumberAppend(a, Pad2(n));
    assert Pow10(2) == 10 * Pow10(1) == 100;
  }

  lemma {:induction false} TwoDigits(n: nat)
    requires n < 100
    ensures IsDigits(Pad2(n)) && Number(Pad2(n)) == n && |Pad2(n)| == 2
  {
    if n < 10 {
      NumberAppend("0", Decimal(n));
      assert Number("0") == 0 by { assert "0"[..0] == ""; }
    } else {
      assert Decimal(n) == Decimal(n / 10) + [Digit(n % 10)];
    }
  }

  // ----- calendar versions

  datatype Version = Version(year: nat, month: nat, day: nat, suffix: string)

  datatype Floors = Floors(dateKey: nat, legacyFloor: nat, laneFloor: nat, lane: nat)

  /** One or two leading digits, and what follows them. */
  function Field(s: string): Option<(nat, string)> {
    if s == "" || !IsDigit(s[0]) then None
    else if |s| > 1 && IsDigit(s[1]) then Some((Number(s[..2]), s[2..]))
    else Some((Number(s[..1]), s[1..]))
  }

  /** Nothing, or a dot or a hyphen and the rest of the line. */
  predicate IsSuffix(s: string) {
    s == "" || ((s[0] == '.' || s[0] == '-')
      && '\n' !in s && '\r' !in s && '\U{2028}' !in s && '\U{2029}' !in s)
  }

  /** The expression `CALVER_REGEX` on a trimmed string. */
  function Match(t: string): Option<Version> {
    if |t| < 5 || !IsDigits(t[..4]) || t[4] != '.' then None
    else
      match Field(t[5..])
      case None => None
      case Some((month, rest)) =>
        if rest == "" || rest[0] != '.' then None
        else
          match Field(rest[1..])
          case None => None
          case Some((day, suffix)) =>
            if IsSuffix(suffix) then Some(Version(Number(t[..4]), month, day, suffix)) else None
  }

  /** One or two digits that read as `n`, with or without a leading zero. */
  predicate IsField(s: string, n: nat) {
    1 <= |s| <= 2 && IsDigits(s) && Number(s) == n
  }

  /** A four-digit year, a month and a day of one or two digits, and perhaps a suffix. */
  ghost predicate Spells(t: string, v: Version) {
    exists m, d :: SpelledWith(t, v, m, d)
  }

  predicate SpelledWith(t: string, v: Version, m: string, d: string) {
    && |t| >= 4 && IsDigits(t[..4]) && Number(t[..4]) == v.year
    && IsField(m, v.month) && IsField(d, v.day) && IsSuffix(v.suffix)
    && t[4..] == "." + (m + ("." + (d + v.suffix)))
  }

  lemma {:induction false} FieldReads(f: string, n: nat, rest: string)
    requires IsField(f, n) && (rest == "" || !IsDigit(rest[0]))
    ensures Field(f + rest) == Some((n, rest))
  {
    var s := f + rest;
    assert s[..|f|] == f && s[|f|..] == rest;
    assert |f| == 1 && rest != "" ==> s[1] == rest[0];
  }

  lemma {:induction false} FieldSplits(s: string)
    requires Field(s).Some?
    ensures exists f :: IsField(f, Field(s).value.0) && s == f + Field(s).value.1
  {
    var k := if |s| > 1 && IsDigit(s[1]) then 2 else 1;
    assert IsField(s[..k], Field(s).value.0) && s == s[..k] + s[k..];
  }

  /** The expression matches exactly the spellings of a version, and reads that version. */
  lemma {:induction false} MatchReads(t: string, v: Version)
    ensures Match(t) == Some(v) <==> Spells(t, v)
  {
    if m, d :| SpelledWith(t, v, m, d) {
      var rest := "." + (d + v.suffix);
      var tail := "." + (m + rest);
      assert t[4] == t[4..][0] && t[5..] == t[4..][1..] == m + rest;
      FieldReads(m, v.month, rest);
      assert rest[1..] == d + v.suffix;
      FieldReads(d, v.day, v.suffix);
    }
    if Match(t) == Some(v) {
      FieldSplits(t[5..]);
      var rest := Field(t[5..]).value.1;
      var m :| IsField(m, v.month) && t[5..] == m + rest;
      FieldSplits(rest[1..]);
      var d :| IsField(d, v.day) && rest[1..] == d + v.suffix;
      assert t[4..] == "." + t[5..] && rest == "." + rest[1..];
      assert SpelledWith(t, v, m, d);
    }
  }

  predicate IsDate(v: Version) {
    1 <= v.month <= 12 && 1 <= v.day <= 31
  }

  function Parse(shortVersion: string): Option<Version> {
    match Match(Trim(shortVersion))
    case None => None
    case Some(v) => if IsDate(v) then Some(v) else None
  }

  /** A short version is read, white space around it ignored, exactly if it spells a version with a month from 1
      to 12 and a day from 1 to 31. */
  lemma {:induction false} ParseReads(shortVersion: string, v: Version)
    ensures Parse(shortVersion) == Some(v) <==>
      Spells(Trim(shortVersion), v) && 1 <= v.month <= 12 && 1 <= v.day <= 31
  {
    MatchReads(Trim(shortVersion), v);
  }

  /** The digits at the end of a string. */
  function TrailingDigits(s: string): (r: string)
    ensures IsDigits(r)
  {
    if s == "" || !IsDigit(s[|s| - 1]) then "" else TrailingDigits(s[..|s| - 1]) + [s[|s| - 1]]
  }

  /** They are the longest stretch of digits a string ends with. */
  lemma {:induction false} LongestDigits(s: string)
    ensures var d := TrailingDigits(s);
      var k := |s| - |d|;
      0 <= k && s[k..] == d && IsDigits(d) && (k == 0 || !IsDigit(s[k - 1]))
  {
    if s != "" && IsDigit(s[|s| - 1]) {
      var n := |s| - 1;
      LongestDigits(s[..n]);
      assert s == s[..n] + [s[n]];
    }
  }

  /** The lane of a suffix: 90 without one, else the number its digits from `k` on end with, at most 89, and 1
      when it ends with none. */
  ghost predicate IsLane(suffix: string, lane: nat) {
    if suffix == "" then lane == 90
    else exists k: nat :: IsNumberedLane(suffix, k, lane)
  }

  predicate IsNumberedLane(s: string, k: nat, lane: nat) {
    && k <= |s| && IsDigits(s[k..]) && (k == 0 || !IsDigit(s[k - 1]))
    && lane == if k == |s| then 1 else if Number(s[k..]) > 89 then 89 else Number(s[k..])
  }

  lemma {:induction false} LaneIs(suffix: string)
    ensures IsLane(suffix, LaneOf(suffix))
  {
    LongestDigits(suffix);
    assert suffix != "" ==> IsNumberedLane(suffix, |suffix| - |TrailingDigits(suffix)|, LaneOf(suffix));
  }

  /** A plain release is above every other lane of its day. */
  function LaneOf(suffix: string): (lane: nat)
    ensures lane <= 90 && (lane == 90 <==> suffix == "")
  {
    if suffix == "" then 90
    else if TrailingDigits(suffix) == "" then 1
    else Least(Number(TrailingDigits(suffix)), 89)
  }

  function Least(a: nat, b: nat): nat {
    if a <= b then a else b
  }

  function DateKey(v: Version): nat {
    10000 * v.year + 100 * v.month + v.day
  }

  function FloorsOf(v: Version): Floors {
    Floors(DateKey(v), 10 * DateKey(v), 100 * DateKey(v) + LaneOf(v.suffix), LaneOf(v.suffix))
  }

  lemma {:induction false} DateText(year: nat, month: nat, day: nat)
    requires month < 100 && day < 100
    ensures IsDigits(Decimal(year) + Pad2(month) + Pad2(day))
    ensures Number(Decimal(year) + Pad2(month) + Pad2(day)) == 10000 * year + 100 * month + day
  {
    NumberPad2(Decimal(year), month);
    NumberPad2(Decimal(year) + Pad2(month), day);
  }

  lemma {:induction false} LegacyText(dateKey: nat)
    ensures IsDigits(Decimal(dateKey) + "0")
    ensures Number(Decimal(dateKey) + "0") == 10 * dateKey
  {
    NumberAppend(Decimal(dateKey), "0");
    assert Pow10(1) == 10 && Number("0") == 0 by { assert "0"[..0] == ""; }
  }

  method SparkleBuildFloorsFromShortVersion(shortVersion: string) returns (r: Option<Floors>)
    ensures r == match Parse(shortVersion) case None => None case Some(v) => Some(FloorsOf(v))
    ensures r.Some? ==>
      var v, f := Parse(shortVersion).value, r.value;
      && f.dateKey == v.year * 10000 + v.month * 100 + v.day
      && f.legacyFloor == f.dateKey * 10 && f.laneFloor == f.dateKey * 100 + f.lane && IsLane(v.suffix, f.lane)
  {
    var found := Match(Trim(shortVersion));
    if found.None? {
      return None;
    }
    var year, month, day := found.value.year, found.value.month, found.value.day;
    if month < 1 || month > 12 || day < 1 || day > 31 {
      return None;
    }
    var floors := BuildFloors(found.value);
    LaneIs(found.value.suffix);
    return Some(floors);
  }

  /** The numbers, put together as text the way the script does. */
  method BuildFloors(v: Version) returns (r: Floors)
    requires IsDate(v)
    ensures r == FloorsOf(v)
  {
    DateText(v.year, v.month, v.day);
    var dateKey := Number(Decimal(v.year) + Pad2(v.month) + Pad2(v.day));
    LegacyText(dateKey);
    var legacyFloor := Number(Decimal(dateKey) + "0");
    var lane := 90;
    if |v.suffix| > 0 {
      var numericSuffix := TrailingDigits(v.suffix);
      if numericSuffix != "" {
        lane := Least(Number(numericSuffix), 89);
      } else {
        lane := 1;
      }
    }
    NumberPad2(Decimal(dateKey), lane);
    var laneFloor := Number(Decimal(dateKey) + Pad2(lane));
    return Floors(dateKey, legacyFloor, laneFloor, lane);
  }

  // ----- what the floors order

  /** The date by year, month and day. */
  predicate Earlier(a: Version, b: Version) {
    a.year < b.year || (a.year == b.year && (a.month < b.month || (a.month == b.month && a.day < b.day)))
  }

  predicate SameDay(a: Version, b: Version) {
    a.year == b.year && a.month == b.month && a.day == b.day
  }

  /** Lane floors order versions by date, and within a day by lane, a plain release last. */
  lemma {:induction false} LaneFloorsOrder(a: Version, b: Version)
    requires IsDate(a) && IsDate(b)
    ensures FloorsOf(a).laneFloor < FloorsOf(b).laneFloor <==>
      Earlier(a, b) || (SameDay(a, b) && LaneOf(a.suffix) < LaneOf(b.suffix))
    ensures SameDay(a, b) && a.suffix != "" && b.suffix == "" ==> FloorsOf(a).laneFloor < FloorsOf(b).laneFloor
    ensures FloorsOf(a).dateKey < FloorsOf(b).dateKey <==> Earlier(a, b)
  {
  }

  const LANE_BUILD_MIN := 1_000_000_000
  const LANE_FLOOR_ADOPTION_DATE_KEY := 20260227

  lemma {:induction false} MatchedYear(t: string)
    requires Match(t).Some?
    ensures Match(t).value.year < 10000
  {
    var y := t[..4];
    assert y[..3][..2] == y[..2] && y[..2][..1] == y[..1] && y[..1][..0] == "";
    assert Number(y[..1]) <= 9;
    assert Number(y[..2]) <= 99 by { assert y[..2][..1] == y[..1]; }
    assert Number(y[..3]) <= 999 by { assert y[..3][..2] == y[..2]; }
  }

  /** The two codings never meet: legacy floors lie below the least lane-coded build number,
      and from the year 1000 on lane floors do not. */
  lemma {:induction false} CodingsApart(shortVersion: string)
    requires Parse(shortVersion).Some?
    ensures var v := Parse(shortVersion).value;
      FloorsOf(v).legacyFloor < LANE_BUILD_MIN
      && (LANE_BUILD_MIN <= FloorsOf(v).laneFloor <==> v.year >= 1000)
  {
    MatchedYear(Trim(shortVersion));
  }

  // ----- the appcast

  /** What the check takes from an `<item>`; a tag that is absent is `None`. */
  datatype Item = Item(title: string, shortVersion: Option<string>, sparkleVersion: Option<string>)

  datatype Error = NoItems | NoVersion(title: string) | NotNumeric(title: string, version: string)
                 | Below(title: string, build: nat, laneFloor: bool, floor: nat)

  datatype CalverItem = CalverItem(title: string, build: nat, floors: Floors)

  predicate HasBuild(item: Item) {
    item.sparkleVersion.Some? && item.sparkleVersion.value != "" && IsDigits(item.sparkleVersion.value)
  }

  predicate IsCalver(item: Item) {
    HasBuild(item) && item.shortVersion.Some? && item.shortVersion.value != ""
    && Parse(item.shortVersion.value).Some?
  }

  function Build(item: Item): nat
    requires HasBuild(item)
  {
    Number(item.sparkleVersion.value)
  }

  function ItemFloors(item: Item): Floors
    requires IsCalver(item)
  {
    FloorsOf(Parse(item.shortVersion.value).value)
  }

  /** The item's build number is past the least lane-coded one. */
  predicate LaneCoded(item: Item) {
    IsCalver(item) && Build(item) >= LANE_BUILD_MIN
  }

  /** The rule an appcast must keep: a calendar-versioned item has to reach its lane floor if
      it is lane-coded, if it dates from the adoption on, or if an item of the same or an
      earlier date is lane-coded already; otherwise its legacy floor. */
  ghost predicate OnLanes(items: seq<Item>, item: Item)
    requires IsCalver(item)
  {
    || Build(item) >= LANE_BUILD_MIN
    || ItemFloors(item).dateKey >= LANE_FLOOR_ADOPTION_DATE_KEY
    || SomeLaneCoded(items, ItemFloors(item).dateKey)
  }

  /** Some item of the date or earlier is lane-coded. */
  ghost predicate SomeLaneCoded(items: seq<Item>, dateKey: nat) {
    exists a :: a in items && LaneCoded(a) && ItemFloors(a).dateKey <= dateKey
  }

  ghost predicate Sound(items: seq<Item>) {
    && items != []
    && (forall item :: item in items ==> HasBuild(item))
    && (forall item :: item in items && IsCalver(item) ==>
          Build(item) >= if OnLanes(items, item) then ItemFloors(item).laneFloor else ItemFloors(item).legacyFloor)
  }

  /** The dated items of a list, as the check collects them. */
  function CalverItems(items: seq<Item>): (r: seq<CalverItem>)
    ensures forall c :: c in r <==>
      exists item :: item in items && IsCalver(item) && c == CalverItem(item.title, Build(item), ItemFloors(item))
  {
    if items == [] then []
    else
      var item := items[|items| - 1];
      CalverItems(items[..|items| - 1])
      + if IsCalver(item) then [CalverItem(item.title, Build(item), ItemFloors(item))] else []
  }

  function LaneKeys(cs: seq<CalverItem>): (r: seq<nat>)
    ensures forall k :: k in r <==> exists c :: c in cs && c.build >= LANE_BUILD_MIN && c.floors.dateKey == k
  {
    if cs == [] then []
    else
      var c := cs[|cs| - 1];
      LaneKeys(cs[..|cs| - 1]) + if c.build >= LANE_BUILD_MIN then [c.floors.dateKey] else []
  }

  predicate AtMost(a: nat, b: nat) {
    a <= b
  }

  /** The first date from which lane floors are expected. */
  function Adoption(cs: seq<CalverItem>): nat {
    var sorted := SortBy(AtMost, LaneKeys(cs));
    if sorted == [] then LANE_FLOOR_ADOPTION_DATE_KEY else Least(sorted[0], LANE_FLOOR_ADOPTION_DATE_KEY)
  }

  lemma {:induction false} AdoptedBy(cs: seq<CalverItem>, dateKey: nat)
    ensures dateKey >= Adoption(cs) <==>
      dateKey >= LANE_FLOOR_ADOPTION_DATE_KEY || SomeBy(LaneKeys(cs), dateKey)
  {
    LeastKey(LaneKeys(cs), dateKey);
  }

  ghost predicate SomeBy(keys: seq<nat>, d: nat) {
    exists k :: k in keys && k <= d
  }

  lemma {:induction false} LeastKey(keys: seq<nat>, d: nat)
    ensures SomeBy(keys, d) <==>
      SortBy(AtMost, keys) != [] && SortBy(AtMost, keys)[0] <= d
  {
    SortBySorted(AtMost, keys);
    var sorted := SortBy(AtMost, keys);
    SameMultisetSameElements(sorted, keys);
    assert forall k :: k in sorted <==> k in Elements(sorted);
    assert forall k :: k in keys <==> k in Elements(keys);
    if k :| k in keys && k <= d {
      var i :| 0 <= i < |sorted| && sorted[i] == k;
      assert i > 0 ==> AtMost(sorted[0], sorted[i]);
    }
    if sorted != [] && sorted[0] <= d {
      assert sorted[0] in sorted;
    }
  }

  predicate ExpectLaneFloor(c: CalverItem, adoption: nat) {
    c.build >= LANE_BUILD_MIN || c.floors.dateKey >= adoption
  }

  function Floor(c: CalverItem, adoption: nat): nat {
    if ExpectLaneFloor(c, adoption) then c.floors.laneFloor else c.floors.legacyFloor
  }

  /** The items whose version is missing or not a number. */
  function FormatErrors(items: seq<Item>): seq<Error> {
    if items == [] then []
    else
      var item := items[|items| - 1];
      FormatErrors(items[..|items| - 1])
      + if HasBuild(item) then []
        else if item.sparkleVersion.None? || item.sparkleVersion.value == "" then [NoVersion(item.title)]
        else [NotNumeric(item.title, item.sparkleVersion.value)]
  }

  function FloorErrors(cs: seq<CalverItem>, adoption: nat): seq<Error> {
    if cs == [] then []
    else
      var c := cs[|cs| - 1];
      FloorErrors(cs[..|cs| - 1], adoption)
      + if c.build >= Floor(c, adoption) then []
        else [Below(c.title, c.build, ExpectLaneFloor(c, adoption), Floor(c, adoption))]
  }

  function Errors(items: seq<Item>): seq<Error> {
    (if items == [] then [NoItems] else []) + FormatErrors(items)
    + FloorErrors(CalverItems(items), Adoption(CalverItems(items)))
  }

  method CollectAppcastSparkleVersionErrors(items: seq<Item>) returns (errors: seq<Error>)
    ensures errors == Errors(items)
  {
    errors := [];
    if items == [] {
      errors := errors + [NoItems];
    }
    var formatErrors, calverItems := CollectItems(items);
    errors := errors + formatErrors;
    var effectiveLaneAdoptionDateKey := Adoption(calverItems);
    var floorErrors := CheckFloors(calverItems, effectiveLaneAdoptionDateKey);
    errors := errors + floorErrors;
  }

  /** The second loop: an error for every dated item below its floor. */
  method CheckFloors(calverItems: seq<CalverItem>, effectiveLaneAdoptionDateKey: nat) returns (errors: seq<Error>)
    ensures errors == FloorErrors(calverItems, effectiveLaneAdoptionDateKey)
  {
    errors := [];
    for i := 0 to |calverItems|
      invariant errors == FloorErrors(calverItems[..i], effectiveLaneAdoptionDateKey)
    {
      var item := calverItems[i];
      assert calverItems[..i + 1][..i] == calverItems[..i];
      var expectLaneFloor :=
        item.build >= LANE_BUILD_MIN || item.floors.dateKey >= effectiveLaneAdoptionDateKey;
      var floor := if expectLaneFloor then item.floors.laneFloor else item.floors.legacyFloor;
      if item.build < floor {
        errors := errors + [Below(item.title, item.build, expectLaneFloor, floor)];
      }
    }
    assert calverItems[..|calverItems|] == calverItems;
  }

  /** The first loop: the dated items, and an error for every item without a numeric version. */
  method CollectItems(items: seq<Item>) returns (errors: seq<Error>, calverItems: seq<CalverItem>)
    ensures errors == FormatErrors(items) && calverItems == CalverItems(items)
  {
    errors, calverItems := [], [];
    for i := 0 to |items|
      invariant errors == FormatErrors(items[..i]) && calverItems == CalverItems(items[..i])
    {
      var item := items[i];
      assert items[..i + 1][..i] == items[..i];
      if item.sparkleVersion.None? || item.sparkleVersion.value == "" {
        errors := errors + [NoVersion(item.title)];
        continue;
      }
      if !IsDigits(item.sparkleVersion.value) {
        errors := errors + [NotNumeric(item.title, item.sparkleVersion.value)];
        continue;
      }
      if item.shortVersion.None? || item.shortVersion.value == "" {
        continue;
      }
      var floors := SparkleBuildFloorsFromShortVersion(item.shortVersion.value);
      if floors.None? {
        continue;
      }
      calverItems := calverItems + [CalverItem(item.title, Number(item.sparkleVersion.value), floors.value)];
    }
    assert items[..|items|] == items;
  }

  // ----- what an appcast without errors keeps

  lemma {:induction false} NoFormatErrors(items: seq<Item>)
    ensures FormatErrors(items) == [] <==> forall item :: item in items ==> HasBuild(item)
  {
    if items != [] {
      var n := |items| - 1;
      NoFormatErrors(items[..n]);
      assert items == items[..n] + [items[n]];
    }
  }

  lemma {:induction false} NoFloorErrors(cs: seq<CalverItem>, adoption: nat)
    ensures FloorErrors(cs, adoption) == [] <==> forall c :: c in cs ==> c.build >= Floor(c, adoption)
  {
    if cs != [] {
      var n := |cs| - 1;
      NoFloorErrors(cs[..n], adoption);
      assert cs == cs[..n] + [cs[n]];
    }
  }

  lemma {:induction false} LaneKeysMean(items: seq<Item>, d: nat)
    ensures SomeBy(LaneKeys(CalverItems(items)), d) <==> SomeLaneCoded(items, d)
  {
    var cs := CalverItems(items);
    if a :| a in items && LaneCoded(a) && ItemFloors(a).dateKey <= d {
      var c := CalverItem(a.title, Build(a), ItemFloors(a));
      assert c in cs && c.floors.dateKey in LaneKeys(cs);
    }
    if k :| k in LaneKeys(cs) && k <= d {
      var c :| c in cs && c.build >= LANE_BUILD_MIN && c.floors.dateKey == k;
      var a :| a in items && IsCalver(a) && c == CalverItem(a.title, Build(a), ItemFloors(a));
      assert LaneCoded(a) && ItemFloors(a).dateKey <= d;
    }
  }

  lemma {:induction false} OnLanesMeans(items: seq<Item>, item: Item)
    requires IsCalver(item)
    ensures OnLanes(items, item) <==>
      ExpectLaneFloor(CalverItem(item.title, Build(item), ItemFloors(item)), Adoption(CalverItems(items)))
  {
    AdoptedBy(CalverItems(items), ItemFloors(item).dateKey);
    LaneKeysMean(items, ItemFloors(item).dateKey);
  }

  /** The floor an item is held to is the one the rule names. */
  lemma {:induction false} FloorsMean(items: seq<Item>, cs: seq<CalverItem>, adoption: nat)
    requires cs == CalverItems(items) && adoption == Adoption(cs)
    ensures (forall c :: c in cs ==> c.build >= Floor(c, adoption)) <==>
      (forall item :: item in items && IsCalver(item) ==>
         Build(item) >= if OnLanes(items, item) then ItemFloors(item).laneFloor else ItemFloors(item).legacyFloor)
  {
    forall item | item in items && IsCalver(item)
      ensures var c := CalverItem(item.title, Build(item), ItemFloors(item));
        c in cs && Floor(c, adoption) ==
          if OnLanes(items, item) then ItemFloors(item).laneFloor else ItemFloors(item).legacyFloor
    {
      OnLanesMeans(items, item);
    }
  }

  /** The check is silent exactly on the appcasts that keep the rule. */
  lemma {:induction false} SilentIffSound(items: seq<Item>)
    ensures Errors(items) == [] <==> Sound(items)
  {
    var cs := CalverItems(items);
    var adoption := Adoption(cs);
    NoFormatErrors(items);
    NoFloorErrors(cs, adoption);
    FloorsMean(items, cs, adoption);
  }

  /** The errors name exactly the items without a version, those whose version is no number, and those below the
      floor due to them. */
  lemma {:induction false} ErrorsName(items: seq<Item>, e: Error)
    ensures e in Errors(items) <==>
      match e
      case NoItems => items == []
      case NoVersion(title) => exists item :: item in items && item.title == title && Unversioned(item)
      case NotNumeric(title, version) =>
        version != "" && !IsDigits(version)
        && exists item :: item in items && item.title == title && item.sparkleVersion == Some(version)
      case Below(title, build, onLanes, floor) =>
        exists item :: item in items && item.title == title && BelowFloor(items, item, build, onLanes, floor)
  {
    var cs := CalverItems(items);
    FormatErrorsName(items, e);
    FloorErrorsName(cs, Adoption(cs), e);
    if e.Below? {
      BelowMeans(items, e);
    }
  }

  predicate Unversioned(item: Item) {
    item.sparkleVersion == None || item.sparkleVersion == Some("")
  }

  /** A dated item with this build number, below this floor due to it. */
  ghost predicate BelowFloor(items: seq<Item>, item: Item, build: nat, onLanes: bool, floor: nat) {
    && IsCalver(item) && build == Build(item) < floor && (onLanes <==> OnLanes(items, item))
    && floor == if onLanes then ItemFloors(item).laneFloor else ItemFloors(item).legacyFloor
  }

  lemma {:induction false} FormatErrorsName(items: seq<Item>, e: Error)
    ensures e in FormatErrors(items) <==> exists item :: item in items && Misformatted(item, e)
  {
    if items != [] {
      var n := |items| - 1;
      FormatErrorsName(items[..n], e);
      assert items == items[..n] + [items[n]];
      assert Misformatted(items[n], e) ==> items[n] in items;
    }
  }

  predicate Misformatted(item: Item, e: Error) {
    match e
    case NoVersion(title) => item.title == title && Unversioned(item)
    case NotNumeric(title, version) =>
      item.title == title && item.sparkleVersion == Some(version) && version != "" && !IsDigits(version)
    case _ => false
  }

  predicate TooLow(c: CalverItem, adoption: nat, e: Error) {
    && c.build < Floor(c, adoption)
    && e == Below(c.title, c.build, ExpectLaneFloor(c, adoption), Floor(c, adoption))
  }

  lemma {:induction false} FloorErrorsName(cs: seq<CalverItem>, adoption: nat, e: Error)
    ensures e in FloorErrors(cs, adoption) <==>
      exists c :: c in cs && TooLow(c, adoption, e)
  {
    if cs != [] {
      var n := |cs| - 1;
      FloorErrorsName(cs[..n], adoption, e);
      assert cs == cs[..n] + [cs[n]];
      assert cs[n] in cs;
    }
  }

  lemma {:induction false} BelowMeans(items: seq<Item>, e: Error)
    requires e.Below?
    ensures (exists c :: c in CalverItems(items) && TooLow(c, Adoption(CalverItems(items)), e)) <==>
      exists item :: item in items && item.title == e.title && BelowFloor(items, item, e.build, e.laneFloor, e.floor)
  {
    var cs := CalverItems(items);
    var adoption := Adoption(cs);
    if c :| c in cs && TooLow(c, adoption, e) {
      var item := ItemOf(items, cs, c);
      TooLowMeans(items, item, adoption, e);
    }
    if item :| item in items && item.title == e.title && BelowFloor(items, item, e.build, e.laneFloor, e.floor) {
      TooLowMeans(items, item, adoption, e);
      assert CalverItem(item.title, Build(item), ItemFloors(item)) in cs;
    }
  }

  lemma {:induction false} ItemOf(items: seq<Item>, cs: seq<CalverItem>, c: CalverItem) returns (item: Item)
    requires cs == CalverItems(items) && c in cs
    ensures item in items && IsCalver(item) && c == CalverItem(item.title, Build(item), ItemFloors(item))
  {
    item :| item in items && IsCalver(item) && c == CalverItem(item.title, Build(item), ItemFloors(item));
  }

  lemma {:induction false} TooLowMeans(items: seq<Item>, item: Item, adoption: nat, e: Error)
    requires e.Below? && IsCalver(item) && adoption == Adoption(CalverItems(items))
    ensures TooLow(CalverItem(item.title, Build(item), ItemFloors(item)), adoption, e) <==>
      item.title == e.title && BelowFloor(items, item, e.build, e.laneFloor, e.floor)
  {
    OnLanesMeans(items, item);
  }

  /** An appcast without errors in which `b` has to be on lanes. */
  ghost predicate AdoptedIn(items: seq<Item>, b: Item) {
    && Errors(items) == [] && b in items && IsCalver(b)
    && (ItemFloors(b).dateKey >= LANE_FLOOR_ADOPTION_DATE_KEY || SomeLaneCoded(items, ItemFloors(b).dateKey))
  }

  /** Once an item is lane-coded, every item of the same or a later date reaches its lane floor, and so does
      every item from the adoption date on; from the year 1000 on it is then lane-coded itself. */
  lemma {:induction false} LanesStay(items: seq<Item>, b: Item)
    requires AdoptedIn(items, b)
    ensures Build(b) >= ItemFloors(b).laneFloor
    ensures Parse(b.shortVersion.value).value.year >= 1000 ==> LaneCoded(b)
  {
    SilentIffSound(items);
    assert OnLanes(items, b);
    CodingsApart(b.shortVersion.value);
  }

  /** Every item of this version that has to be on lanes is lane-coded. */
  ghost predicate AlwaysLaneCoded(shortVersion: string) {
    forall items, b :: AdoptedIn(items, b) && b.shortVersion == Some(shortVersion) ==> LaneCoded(b)
  }

  /** That is so for the versions from the year 1000 on and only for them: an earlier one can reach its
      lane floor with a build number that is not lane-coded. */
  lemma {:induction false} LanesStayFrom(shortVersion: string)
    requires shortVersion != "" && Parse(shortVersion).Some?
    ensures AlwaysLaneCoded(shortVersion) <==> Parse(shortVersion).value.year >= 1000
  {
    if Parse(shortVersion).value.year >= 1000 {
      forall items, b | AdoptedIn(items, b) && b.shortVersion == Some(shortVersion) ensures LaneCoded(b) {
        LanesStay(items, b);
      }
    } else {
      BelowTheLanes(shortVersion);
    }
  }

  /** Two releases of one early version, the first lane-coded and the second at its lane floor. */
  lemma {:induction false} BelowTheLanes(shortVersion: string)
    requires shortVersion != "" && Parse(shortVersion).Some? && Parse(shortVersion).value.year < 1000
    ensures !AlwaysLaneCoded(shortVersion)
  {
    CodingsApart(shortVersion);
    var floors := FloorsOf(Parse(shortVersion).value);
    var a, b := Released(shortVersion, LANE_BUILD_MIN), Released(shortVersion, floors.laneFloor);
    TwoReleases(a, b, floors);
    assert !LaneCoded(b);
  }

  function Released(shortVersion: string, build: nat): (item: Item)
    requires shortVersion != "" && Parse(shortVersion).Some?
    ensures IsCalver(item) && Build(item) == build && ItemFloors(item) == FloorsOf(Parse(shortVersion).value)
    ensures item.shortVersion == Some(shortVersion)
  {
    Item("", Some(shortVersion), Some(Decimal(build)))
  }

  lemma {:induction false} TwoReleases(a: Item, b: Item, floors: Floors)
    requires IsCalver(a) && IsCalver(b) && ItemFloors(a) == floors && ItemFloors(b) == floors
    requires LaneCoded(a) && Build(a) >= floors.laneFloor && Build(b) == floors.laneFloor
    ensures AdoptedIn([a, b], b)
  {
    var items := [a, b];
    assert a == items[0] && b == items[1];
    assert SomeLaneCoded(items, floors.dateKey);
    BothReach(a, b, items);
    SilentIffSound(items);
  }

  lemma {:induction false} BothReach(a: Item, b: Item, items: seq<Item>)
    requires IsCalver(a) && IsCalver(b) && OnLanes(items, a) && OnLanes(items, b)
    requires Build(a) >= ItemFloors(a).laneFloor && Build(b) >= ItemFloors(b).laneFloor
    requires items == [a, b]
    ensures Sound(items)
  {
  }
}
