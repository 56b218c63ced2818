// scripts/release-check.ts: the build-number rules of the update feed.
module Appcast {
  import opened Wrappers
  import opened Text
  import opened SparkleBuild

  /** The trimmed tags of one `<item>`. */
  datatype Item = Item(title: Option<string>, shortVersion: Option<string>, sparkleVersion: Option<string>)

  datatype CalverItem = CalverItem(title: string, build: nat, floors: Floors)

  datatype Problem =
    | NoItems
    | MissingVersion(title: string)
    | NonNumericVersion(title: string, version: string)
    | BelowFloor(title: string, build: nat, lane: bool, floor: nat)

  const LANE_FLOOR_ADOPTION_DATE_KEY: nat := 20260227

  // ---------- Reading the items ----------

  function TagProblem(item: Item): Option<Problem> {
    var title := item.title.GetOr("unknown");
    if item.sparkleVersion.GetOr("") == "" then Some(MissingVersion(title))
    else if !AllDigits(item.sparkleVersion.value) then Some(NonNumericVersion(title, item.sparkleVersion.value))
    else None
  }

  function Calver(item: Item): Option<CalverItem> {
    if TagProblem(item).Some? || item.shortVersion.GetOr("") == "" then None
    else
      match SparkleBuildFloorsFromShortVersion(item.shortVersion.value)
      case None => None
      case Some(floors) =>
        Some(CalverItem(item.title.GetOr("unknown"), Value(item.sparkleVersion.value), floors))
  }

  function AsSeq<T>(x: Option<T>): seq<T> {
    match x case None => [] case Some(v) => [v]
  }

  function TagProblems(items: seq<Item>): (r: seq<Problem>)
    ensures r == [] <==> forall x :: x in items ==> TagProblem(x).None?
  {
    hide TagProblem;
    if items == [] then []
    else
      var init, last := items[..|items| - 1], items[|items| - 1];
      assert items == init + [last];
      TagProblems(init) + AsSeq(TagProblem(last))
  }

  function CalverItems(items: seq<Item>): (r: seq<CalverItem>)
    ensures forall c :: c in r <==> exists x :: x in items && Calver(x) == Some(c)
  {
    hide Calver;
    if items == [] then []
    else
      var init, last := items[..|items| - 1], items[|items| - 1];
      assert items == init + [last];
      CalverItems(init) + AsSeq(Calver(last))
  }

  // ---------- The cutover date ----------

  /** The earliest date among the items numbered in lanes; `toSorted(...)[0]`. */
  function ObservedAdoption(items: seq<CalverItem>): (r: Option<nat>)
    ensures r.Some? ==> exists c :: c in items && c.build >= LANE_BUILD_MIN && c.floors.dateKey == r.value
    ensures forall c :: c in items && c.build >= LANE_BUILD_MIN ==> r.Some? && r.value <= c.floors.dateKey
  {
    if items == [] then None
    else
      var init, last := items[..|items| - 1], items[|items| - 1];
      assert items == init + [last];
      var r := ObservedAdoption(init);
      if last.build < LANE_BUILD_MIN || (r.Some? && r.value <= last.floors.dateKey) then r
      else Some(last.floors.dateKey)
  }

  function EffectiveAdoption(items: seq<CalverItem>): (date: nat)
    ensures date <= LANE_FLOOR_ADOPTION_DATE_KEY
  {
    match ObservedAdoption(items)
    case None => LANE_FLOOR_ADOPTION_DATE_KEY
    case Some(d) => if d < LANE_FLOOR_ADOPTION_DATE_KEY then d else LANE_FLOOR_ADOPTION_DATE_KEY
  }

  function FloorProblem(c: CalverItem, adoption: nat): Option<Problem> {
    var lane := c.build >= LANE_BUILD_MIN || c.floors.dateKey >= adoption;
    var floor := if lane then c.floors.laneFloor else c.floors.legacyFloor;
    if c.build < floor then Some(BelowFloor(c.title, c.build, lane, floor)) else None
  }

  function FloorProblems(items: seq<CalverItem>, adoption: nat): (r: seq<Problem>)
    ensures r == [] <==> forall c :: c in items ==> FloorProblem(c, adoption).None?
  {
    hide FloorProblem;
    if items == [] then []
    else
      var init, last := items[..|items| - 1], items[|items| - 1];
      assert items == init + [last];
      FloorProblems(init, adoption) + AsSeq(FloorProblem(last, adoption))
  }

  function AppcastProblems(items: seq<Item>): seq<Problem> {
    var calver := CalverItems(items);
    (if items == [] then [NoItems] else TagProblems(items))
    + FloorProblems(calver, EffectiveAdoption(calver))
  }

  lemma NextItem(items: seq<Item>, i: nat)
    requires i < |items|
    ensures TagProblems(items[..i + 1]) == TagProblems(items[..i]) + AsSeq(TagProblem(items[i]))
    ensures CalverItems(items[..i + 1]) == CalverItems(items[..i]) + AsSeq(Calver(items[i]))
  {
    assert items[..i + 1][..i] == items[..i];
  }

  lemma {:induction false} NextCalver(items: seq<CalverItem>, i: nat, adoption: nat)
    requires i < |items|
    ensures FloorProblems(items[..i + 1], adoption)
         == FloorProblems(items[..i], adoption) + AsSeq(FloorProblem(items[i], adoption))
  {
    assert items[..i + 1][..i] == items[..i];
  }

  ghost predicate Read(items: seq<Item>, i: nat, errors: seq<Problem>, calver: seq<CalverItem>) {
    && i <= |items|
    && errors == (if items == [] then [NoItems] else TagProblems(items[..i]))
    && calver == CalverItems(items[..i])
  }

  lemma ReadNone(items: seq<Item>)
    ensures Read(items, 0, if items == [] then [NoItems] else [], [])
  {
  }

  lemma ReadNext(items: seq<Item>, i: nat, errors: seq<Problem>, calver: seq<CalverItem>)
    requires i < |items| && Read(items, i, errors, calver)
    ensures Read(items, i + 1, errors + AsSeq(TagProblem(items[i])), calver + AsSeq(Calver(items[i])))
    ensures errors + [] == errors && calver + [] == calver
  {
    hide TagProblem, Calver, TagProblems, CalverItems;
    NextItem(items, i);
  }

  ghost predicate Checked(items: seq<Item>, calver: seq<CalverItem>, i: nat, errors: seq<Problem>) {
    && i <= |calver| && calver == CalverItems(items)
    && errors == (if items == [] then [NoItems] else TagProblems(items))
                 + FloorProblems(calver[..i], EffectiveAdoption(calver))
  }

  lemma CheckedNone(items: seq<Item>, errors: seq<Problem>, calver: seq<CalverItem>)
    requires Read(items, |items|, errors, calver)
    ensures Checked(items, calver, 0, errors)
  {
    assert items[..|items|] == items && calver[..0] == [];
    hide TagProblems, CalverItems, EffectiveAdoption;
  }

  lemma CheckedNext(items: seq<Item>, calver: seq<CalverItem>, i: nat, errors: seq<Problem>)
    requires i < |calver| && Checked(items, calver, i, errors)
    ensures Checked(items, calver, i + 1, errors + AsSeq(FloorProblem(calver[i], EffectiveAdoption(calver))))
    ensures errors + [] == errors
  {
    hide TagProblems, CalverItems, FloorProblems, EffectiveAdoption, FloorProblem;
    NextCalver(calver, i, EffectiveAdoption(calver));
  }

  lemma CheckedAll(items: seq<Item>, calver: seq<CalverItem>, errors: seq<Problem>)
    requires Checked(items, calver, |calver|, errors)
    ensures errors == AppcastProblems(items)
  {
    assert calver[..|calver|] == calver;
    hide TagProblems, CalverItems, FloorProblems, EffectiveAdoption;
  }

  method CollectAppcastSparkleVersionErrors(items: seq<Item>) returns (errors: seq<Problem>)
    ensures errors == AppcastProblems(items)
  {
    hide Read, Checked, EffectiveAdoption, AllDigits, Value, SparkleBuildFloorsFromShortVersion, AppcastProblems;
    ReadNone(items);
    errors := [];
    var calver: seq<CalverItem> := [];
    if |items| == 0 {
      errors := errors + [NoItems];
    }
    assert errors == if items == [] then [NoItems] else [];
    for i := 0 to |items|
      invariant Read(items, i, errors, calver)
    {
      var item := items[i];
      var title := item.title.GetOr("unknown");
      ReadNext(items, i, errors, calver);
      if item.sparkleVersion.GetOr("") == "" {
        errors := errors + [MissingVersion(title)];
        continue;
      }
      if !AllDigits(item.sparkleVersion.value) {
        errors := errors + [NonNumericVersion(title, item.sparkleVersion.value)];
        continue;
      }
      if item.shortVersion.GetOr("") == "" {
        continue;
      }
      var floors := SparkleBuildFloorsFromShortVersion(item.shortVersion.value);
      if floors == None {
        continue;
      }
      calver := calver + [CalverItem(title, Value(item.sparkleVersion.value), floors.value)];
    }
    CheckedNone(items, errors, calver);
    var adoption := EffectiveAdoption(calver);
    for i := 0 to |calver|
      invariant Checked(items, calver, i, errors)
    {
      var c := calver[i];
      CheckedNext(items, calver, i, errors);
      var expectLaneFloor := c.build >= LANE_BUILD_MIN || c.floors.dateKey >= adoption;
      var floor := if expectLaneFloor then c.floors.laneFloor else c.floors.legacyFloor;
      if c.build < floor {
        errors := errors + [BelowFloor(c.title, c.build, expectLaneFloor, floor)];
      }
    }
    CheckedAll(items, calver, errors);
  }

  // ---------- What a clean feed means ----------

  /** Before `date` old numbers at or above the old floor; from `date` on the lane floor. */
  ghost predicate CutOverAt(items: seq<CalverItem>, date: nat) {
    forall c :: c in items ==>
      if c.floors.dateKey < date then c.floors.legacyFloor <= c.build < 1_000_000_000
      else c.floors.laneFloor <= c.build
  }

  ghost predicate Dated(c: CalverItem, s: Stamp) {
    s.Valid() && c.floors == FloorsOf(s)
  }

  ghost predicate FromVersions(items: seq<CalverItem>) {
    forall c :: c in items ==> exists s :: Dated(c, s)
  }

  lemma {:induction false} CalverItemsAreDated(items: seq<Item>)
    ensures FromVersions(CalverItems(items))
  {
    forall c | c in CalverItems(items) ensures exists s :: Dated(c, s) {
      var x :| x in items && Calver(x) == Some(c);
      FloorsIff(x.shortVersion.value, c.floors);
      var s :| Reads(x.shortVersion.value, s) && c.floors == FloorsOf(s);
      assert Dated(c, s);
    }
  }

  ghost predicate CutsOver(items: seq<CalverItem>) {
    exists date: nat :: date <= 20260227 && CutOverAt(items, date)
  }

  predicate Numbered(version: string) {
    version != "" && forall i :: 0 <= i < |version| ==> '0' <= version[i] <= '9'
  }

  ghost predicate AllNumbered(items: seq<Item>) {
    forall x :: x in items ==> Numbered(x.sparkleVersion.GetOr(""))
  }

  lemma {:induction false} AllNumberedIff(items: seq<Item>)
    ensures AllNumbered(items) <==> forall x :: x in items ==> TagProblem(x).None?
  {
  }

  lemma {:induction false} FloorsIffCutOver(items: seq<CalverItem>)
    requires FromVersions(items)
    ensures FloorProblems(items, EffectiveAdoption(items)) == []
       <==> CutsOver(items)
    ensures FloorProblems(items, EffectiveAdoption(items)) == [] ==> CutOverAt(items, EffectiveAdoption(items))
  {
    var e := EffectiveAdoption(items);
    if FloorProblems(items, e) == [] {
      assert forall c :: c in items ==> FloorProblem(c, e).None?;
      assert CutOverAt(items, e);
    }
    if CutsOver(items) {
      var date: nat :| date <= LANE_FLOOR_ADOPTION_DATE_KEY && CutOverAt(items, date);
      assert date <= e;
      forall c | c in items ensures FloorProblem(c, e).None? {
        var s :| Dated(c, s);
      }
    }
  }

  /**
   * The feed is clean exactly when it has items, all numbered, and there is one cutover date,
   * no later than the agreed one, that separates old numbers from lane numbers.
   */
  lemma {:induction false} CleanIff(items: seq<Item>)
    ensures AppcastProblems(items) == []
       <==> items != [] && AllNumbered(items) && CutsOver(CalverItems(items))
    ensures AppcastProblems(items) == []
       ==> CutOverAt(CalverItems(items), EffectiveAdoption(CalverItems(items)))
  {
    CalverItemsAreDated(items);
    AllNumberedIff(items);
    FloorsIffCutOver(CalverItems(items));
    hide CalverItems, CutsOver, TagProblem, EffectiveAdoption, FromVersions, CutOverAt, FloorProblem, AllNumbered;
  }

  /** In a clean feed with four-digit years the scheme of a number tells its side of the cutover. */
  lemma {:induction false} LaterSchemeIsLater(items: seq<Item>, a: CalverItem, b: CalverItem)
    requires AppcastProblems(items) == []
    requires a in CalverItems(items) && b in CalverItems(items)
    requires forall s :: Dated(b, s) ==> s.year >= 1000
    requires a.floors.dateKey < EffectiveAdoption(CalverItems(items)) <= b.floors.dateKey
    ensures a.build < LANE_BUILD_MIN <= b.build
  {
    CalverItemsAreDated(items);
    CleanIff(items);
    hide AppcastProblems, CalverItems, EffectiveAdoption;
    var s :| Dated(b, s);
    SchemesApart(s);
  }

  /** The test on the build number never decides: such an item is past the adoption date anyway. */
  lemma DateTestDecides(items: seq<CalverItem>, c: CalverItem)
    requires c in items
    ensures c.build >= LANE_BUILD_MIN ==> c.floors.dateKey >= EffectiveAdoption(items)
  {
  }

  lemma {:induction false} TagProblemsMembers(items: seq<Item>, p: Problem)
    ensures p in TagProblems(items) <==> exists x :: x in items && TagProblem(x) == Some(p)
  {
    hide TagProblem;
    if items != [] {
      var init, last := items[..|items| - 1], items[|items| - 1];
      assert items == init + [last];
      TagProblemsMembers(init, p);
    }
  }

  lemma {:induction false} FloorProblemsMembers(items: seq<CalverItem>, adoption: nat, p: Problem)
    ensures p in FloorProblems(items, adoption) <==> exists c :: c in items && FloorProblem(c, adoption) == Some(p)
  {
    hide FloorProblem;
    if items != [] {
      var init, last := items[..|items| - 1], items[|items| - 1];
      assert items == init + [last];
      FloorProblemsMembers(init, adoption, p);
    }
  }

  /** The adoption date is the agreed one, or the earliest date of an item numbered in lanes if that is earlier. */
  lemma {:induction false} AdoptionIs(items: seq<CalverItem>)
    ensures EffectiveAdoption(items) <= 20260227
    ensures forall c :: c in items && c.build >= 1_000_000_000 ==> EffectiveAdoption(items) <= c.floors.dateKey
    ensures EffectiveAdoption(items) == 20260227
         || exists c :: c in items && c.build >= 1_000_000_000 && c.floors.dateKey == EffectiveAdoption(items)
  {
    hide ObservedAdoption;
  }

  /** The item has this title, or the message says "unknown". */
  predicate Titled(x: Item, title: string) {
    x.title == Some(title) || (x.title.None? && title == "unknown")
  }

  lemma {:induction false} TagReported(items: seq<Item>, p: Problem)
    requires p.MissingVersion? || p.NonNumericVersion?
    ensures p in AppcastProblems(items) <==> exists x :: x in items && TagProblem(x) == Some(p)
  {
    var calver := CalverItems(items);
    TagProblemsMembers(items, p);
    FloorProblemsMembers(calver, EffectiveAdoption(calver), p);
    hide CalverItems, EffectiveAdoption, TagProblems, FloorProblems, TagProblem;
  }

  /** The item's number is there but is not a number. */
  predicate BadlyNumbered(x: Item, version: string) {
    x.sparkleVersion == Some(version) && version != "" && exists i :: 0 <= i < |version| && !('0' <= version[i] <= '9')
  }

  lemma TagProblemIs(x: Item, title: string, version: string)
    ensures TagProblem(x) == Some(MissingVersion(title))
       <==> Titled(x, title) && (x.sparkleVersion.None? || x.sparkleVersion.value == "")
    ensures TagProblem(x) == Some(NonNumericVersion(title, version)) <==> Titled(x, title) && BadlyNumbered(x, version)
  {
    var v := x.sparkleVersion.GetOr("");
    if !AllDigits(v) {
      var i :| 0 <= i < |v| && !IsDigit(v[i]);
    }
  }

  /** A missing number is reported for every item without one, and a bad one for every item whose is not all digits. */
  lemma {:induction false} TagsReportedIff(items: seq<Item>, title: string, version: string)
    ensures MissingVersion(title) in AppcastProblems(items)
       <==> exists x :: x in items && Titled(x, title) && (x.sparkleVersion.None? || x.sparkleVersion.value == "")
    ensures NonNumericVersion(title, version) in AppcastProblems(items)
       <==> exists x :: x in items && Titled(x, title) && BadlyNumbered(x, version)
  {
    TagReported(items, MissingVersion(title));
    TagReported(items, NonNumericVersion(title, version));
    hide AppcastProblems, TagProblem, Titled, BadlyNumbered;
    forall x
      ensures TagProblem(x) == Some(MissingVersion(title))
         <==> Titled(x, title) && (x.sparkleVersion.None? || x.sparkleVersion.value == "")
      ensures TagProblem(x) == Some(NonNumericVersion(title, version))
         <==> Titled(x, title) && BadlyNumbered(x, version)
    {
      TagProblemIs(x, title, version);
    }
  }

  /** The item carries a number and a calendar version, and these are they. */
  ghost predicate Carries(x: Item, c: CalverItem, s: Stamp) {
    && x.sparkleVersion.Some? && Numbered(x.sparkleVersion.value) && c.build == Value(x.sparkleVersion.value)
    && x.shortVersion.Some? && Reads(x.shortVersion.value, s) && c.floors == FloorsOf(s)
    && Titled(x, c.title)
  }

  /** A number is reported as too low for its scheme exactly when it is; from the adoption date on the lanes count. */
  lemma {:induction false} FloorsReportedIff(items: seq<Item>, title: string, build: nat, lane: bool, floor: nat)
    ensures BelowFloor(title, build, lane, floor) in AppcastProblems(items)
       <==> exists c ::
              && c in CalverItems(items) && c.title == title && c.build == build < floor
              && (lane <==> build >= 1_000_000_000 || c.floors.dateKey >= EffectiveAdoption(CalverItems(items)))
              && floor == if lane then c.floors.laneFloor else c.floors.legacyFloor
  {
    var calver := CalverItems(items);
    TagProblemsMembers(items, BelowFloor(title, build, lane, floor));
    FloorProblemsMembers(calver, EffectiveAdoption(calver), BelowFloor(title, build, lane, floor));
    hide CalverItems, EffectiveAdoption, TagProblems, FloorProblems, AllDigits;
  }

  lemma NoFloorsForNothing()
    ensures SparkleBuildFloorsFromShortVersion("") == None
  {
    TrimFixes("");
    assert LeadingDigits("") == 0;
    hide LeadingDigits, Trim, ReadDay, IsSuffix, Decimal, Value, Pad2, LaneOf;
    assert ReadField("", 4, 4) == None;
  }

  lemma CalverIs(x: Item, c: CalverItem)
    ensures Calver(x) == Some(c) <==> exists s :: Carries(x, c, s)
  {
    hide SparkleBuildFloorsFromShortVersion, Reads, FloorsOf, Value;
    NoFloorsForNothing();
    FloorsIff(x.shortVersion.GetOr(""), c.floors);
    FloorsIff("", c.floors);
    var v := x.sparkleVersion.GetOr("");
    assert Numbered(v) <==> v != "" && AllDigits(v);
    hide AllDigits, Numbered;
    if Calver(x) == Some(c) {
      var s :| Reads(x.shortVersion.GetOr(""), s) && c.floors == FloorsOf(s);
      assert Carries(x, c, s);
    }
    if s :| Carries(x, c, s) {
      assert SparkleBuildFloorsFromShortVersion(x.shortVersion.value) == Some(c.floors);
    }
  }

  /** The items checked against the floors are those with a number and a calendar version, no others. */
  lemma {:induction false} CalverItemsIff(items: seq<Item>, c: CalverItem)
    ensures c in CalverItems(items) <==> exists x, s :: x in items && Carries(x, c, s)
  {
    hide Calver, Carries;
    forall x ensures Calver(x) == Some(c) <==> exists s :: Carries(x, c, s) {
      CalverIs(x, c);
    }
    assert c in CalverItems(items) <==> exists x :: x in items && Calver(x) == Some(c);
    hide CalverItems;
  }

  /** The order of the items decides only the order of the messages. */
  lemma {:induction false} OrderIsIrrelevant(items: seq<Item>, others: seq<Item>)
    requires forall x :: x in items <==> x in others
    ensures AppcastProblems(items) == [] <==> AppcastProblems(others) == []
  {
    CleanIff(items);
    CleanIff(others);
    var a, b := CalverItems(items), CalverItems(others);
    assert forall c :: c in a <==> c in b;
    assert forall date :: CutOverAt(a, date) <==> CutOverAt(b, date);
    hide AppcastProblems, CalverItems;
    assert items != [] ==> items[0] in others;
    assert others != [] ==> others[0] in items;
  }

  lemma CanonicalItem(title: string, version: string)
    requires SparkleBuildFloorsFromShortVersion(version).Some?
    ensures
      var floors := SparkleBuildFloorsFromShortVersion(version).value;
      var item := Item(Some(title), Some(version), Some(Decimal(floors.laneFloor)));
      TagProblem(item) == None && Calver(item) == Some(CalverItem(title, floors.laneFloor, floors))
  {
    hide SparkleBuildFloorsFromShortVersion, Decimal, AllDigits, Value;
    NoFloorsForNothing();
  }

  lemma {:induction false} WithItem(items: seq<Item>, item: Item)
    ensures CalverItems(items + [item]) == CalverItems(items) + AsSeq(Calver(item))
    ensures AllNumbered(items + [item]) <==> AllNumbered(items) && TagProblem(item).None?
  {
    AllNumberedIff(items);
    AllNumberedIff(items + [item]);
    hide TagProblem, Calver, AllNumbered;
    NextItem(items + [item], |items|);
    assert (items + [item])[..|items|] == items;
    assert (items + [item])[..|items| + 1] == items + [item];
    assert item in items + [item];
    assert forall x :: x in items ==> x in items + [item];
    hide CalverItems;
  }

  lemma {:induction false} CleanWith(items: seq<Item>, item: Item, c: CalverItem)
    requires AppcastProblems(items) == [] && TagProblem(item) == None && Calver(item) == Some(c)
    ensures AppcastProblems(items + [item]) == [] <==> CutsOver(CalverItems(items) + [c])
    ensures CutOverAt(CalverItems(items), EffectiveAdoption(CalverItems(items)))
    ensures exists s :: Dated(c, s)
  {
    hide CalverItems, TagProblem, Calver, AppcastProblems, EffectiveAdoption, CutOverAt, CutsOver, AllNumbered;
    WithItem(items, item);
    CleanIff(items);
    CleanIff(items + [item]);
    CalverItemsAreDated(items + [item]);
    assert c in CalverItems(items + [item]);
  }

  lemma CutOverWith(items: seq<CalverItem>, c: CalverItem, adoption: nat)
    requires adoption <= LANE_FLOOR_ADOPTION_DATE_KEY && CutOverAt(items, adoption)
    requires exists s :: Dated(c, s)
    requires c.build == c.floors.laneFloor
    ensures CutsOver(items + [c])
       <==> (c.build >= LANE_BUILD_MIN ==>
              forall x :: x in items && c.floors.dateKey <= x.floors.dateKey < adoption ==>
                x.build >= x.floors.laneFloor)
  {
    var s :| Dated(c, s);
    var all := items + [c];
    assert forall x :: x in all <==> x in items || x == c;
    if CutsOver(all) {
      var date: nat :| date <= LANE_FLOOR_ADOPTION_DATE_KEY && CutOverAt(all, date);
      assert c in all;
      assert c.build >= LANE_BUILD_MIN ==> c.floors.dateKey >= date;
      forall x | x in items && date <= x.floors.dateKey ensures x.build >= x.floors.laneFloor {
        assert x in all;
      }
    }
    if c.build < LANE_BUILD_MIN || c.floors.dateKey >= adoption {
      assert CutOverAt(all, adoption);
    } else if forall x :: x in items && c.floors.dateKey <= x.floors.dateKey < adoption ==>
                x.build >= x.floors.laneFloor {
      assert CutOverAt(all, c.floors.dateKey);
    }
  }

  /**
   * A release numbered with its canonical build keeps a clean feed clean exactly when no item already
   * there, dated between it and the adoption date, falls under its own lane floor.
   */
  lemma {:induction false} CanonicalReleaseIff(items: seq<Item>, title: string, version: string)
    requires AppcastProblems(items) == []
    requires CanonicalSparkleBuildFromVersion(version).Some?
    ensures
      var build := CanonicalSparkleBuildFromVersion(version).value;
      var date := SparkleBuildFloorsFromShortVersion(version).value.dateKey;
      var calver := CalverItems(items);
      AppcastProblems(items + [Item(Some(title), Some(version), Some(Decimal(build)))]) == []
      <==> (build >= LANE_BUILD_MIN ==>
              forall c :: c in calver && date <= c.floors.dateKey < EffectiveAdoption(calver) ==>
                c.build >= c.floors.laneFloor)
  {
    var floors := SparkleBuildFloorsFromShortVersion(version).value;
    var c := CalverItem(title, floors.laneFloor, floors);
    CanonicalItem(title, version);
    hide SparkleBuildFloorsFromShortVersion, Decimal;
    CleanWith(items, Item(Some(title), Some(version), Some(Decimal(floors.laneFloor))), c);
    CutOverWith(CalverItems(items), c, EffectiveAdoption(CalverItems(items)));
  }
}
