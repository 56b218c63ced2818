// scripts/sparkle-build.ts: build numbers made by gluing decimal digits together.
module SparkleBuild {
  import opened Wrappers
  import opened Text

  // ---------- Decimal notation ----------

  predicate IsDigit(c: char) { '0' <= c <= '9' }

  predicate AllDigits(s: string) { forall i :: 0 <= i < |s| ==> IsDigit(s[i]) }

  function DigitValue(c: char): (n: nat) ensures n < 10 {
    if IsDigit(c) then (c - '0') as nat else 0
  }

  /** What parseInt and Number read; only ever applied to digits. */
  function Value(s: string): nat {
    if s == "" then 0 else 10 * Value(s[..|s| - 1]) + DigitValue(s[|s| - 1])
  }

  /** What String prints for a natural number. */
  function Decimal(n: nat): (s: string)
    ensures AllDigits(s) && s != "" && Value(s) == n
    ensures |s| == 1 <==> n < 10
    ensures |s| == 2 <==> 10 <= n < 100
  {
    var last := '0' + (n % 10) as char;
    if n < 10 then [last]
    else
      var s := Decimal(n / 10) + [last];
      assert s[..|s| - 1] == Decimal(n / 10);
      s
  }

  /** `String(n).padStart(2, "0")`. */
  function Pad2(n: nat): (s: string)
    ensures AllDigits(s) && Value(s) == n && |s| >= 2 && (n < 100 ==> |s| == 2)
  {
    var s := Decimal(n);
    if |s| == 1 then
      var p := "0" + s;
      assert p[..1] == "0";
      p
    else s
  }

  function Pow10(n: nat): (p: nat) ensures p > 0 {
    if n == 0 then 1 else 10 * Pow10(n - 1)
  }

  lemma {:induction false} ValueOfSnoc(s: string, c: char)
    ensures Value(s + [c]) == 10 * Value(s) + DigitValue(c)
  {
    assert (s + [c])[..|s|] == s;
  }

  lemma Spread(a: nat, p: nat, b: nat)
    ensures 10 * (a * p + b) == a * (10 * p) + 10 * b
  {
  }

  /** Gluing digits on the right shifts the left part by as many places. */
  lemma {:induction false} ValueOfConcat(a: string, b: string)
    ensures Value(a + b) == Value(a) * Pow10(|b|) + Value(b)
  {
    if b == "" {
      assert a + b == a;
    } else {
      var init, last := b[..|b| - 1], b[|b| - 1];
      assert b == init + [last];
      assert a + b == (a + init) + [last];
      ValueOfSnoc(a + init, last);
      ValueOfSnoc(init, last);
      ValueOfConcat(a, init);
      Spread(Value(a), Pow10(|init|), Value(init));
    }
  }

  // ---------- The version pattern ----------

  datatype CalVer = CalVer(year: string, month: string, day: string, suffix: string)

  function LeadingDigits(s: string): (n: nat)
    ensures n <= |s| && (forall i :: 0 <= i < n ==> IsDigit(s[i]))
    ensures n < |s| ==> !IsDigit(s[n])
  {
    if s == "" || !IsDigit(s[0]) then 0
    else
      var n := 1 + LeadingDigits(s[1..]);
      assert forall i :: 1 <= i < n ==> s[i] == s[1..][i - 1];
      n
  }

  function TrailingDigits(s: string): (r: string)
    ensures |r| <= |s| && s[|s| - |r|..] == r && AllDigits(r)
    ensures |r| < |s| ==> !IsDigit(s[|s| - |r| - 1])
  {
    if s == "" || !IsDigit(s[|s| - 1]) then "" else TrailingDigits(s[..|s| - 1]) + [s[|s| - 1]]
  }

  predicate IsLineTerminator(c: char) { c in "\n\r\U{2028}\U{2029}" }

  predicate IsSuffix(s: string) {
    s == "" || (s[0] in ".-" && forall i :: 1 <= i < |s| ==> !IsLineTerminator(s[i]))
  }

  datatype Field = Field(digits: string, rest: string)

  /** Between `lo` and `hi` digits and a dot. */
  function ReadField(t: string, lo: nat, hi: nat): Option<Field> {
    var n := LeadingDigits(t);
    if lo <= n <= hi && n < |t| && t[n] == '.' then Some(Field(t[..n], t[n + 1..])) else None
  }

  /** One or two digits and a suffix. */
  function ReadDay(t: string): Option<Field> {
    var n := LeadingDigits(t);
    if 1 <= n <= 2 && IsSuffix(t[n..]) then Some(Field(t[..n], t[n..])) else None
  }

  /** One left-to-right pass over the text. */
  function MatchCalVer(t: string): Option<CalVer> {
    match ReadField(t, 4, 4)
    case None => None
    case Some(year) =>
      match ReadField(year.rest, 1, 2)
      case None => None
      case Some(month) =>
        match ReadDay(month.rest)
        case None => None
        case Some(day) => Some(CalVer(year.digits, month.digits, day.digits, day.rest))
  }

  function Written(c: CalVer): string {
    c.year + ("." + (c.month + ("." + (c.day + c.suffix))))
  }

  /** What the pattern accepts, with no reading order in it. */
  ghost predicate Matches(t: string, c: CalVer) {
    && t == Written(c)
    && AllDigits(c.year) && |c.year| == 4
    && AllDigits(c.month) && 1 <= |c.month| <= 2
    && AllDigits(c.day) && 1 <= |c.day| <= 2
    && (c.suffix != "" ==> c.suffix[0] == '.' || c.suffix[0] == '-')
    && forall i :: 0 <= i < |c.suffix| ==> c.suffix[i] !in {'\n', '\r', '\U{2028}', '\U{2029}'}
  }

  lemma {:induction false} LeadingDigitsOf(d: string, rest: string)
    requires AllDigits(d) && (rest == "" || !IsDigit(rest[0]))
    ensures LeadingDigits(d + rest) == |d|
    ensures (d + rest)[..|d|] == d && (d + rest)[|d|..] == rest
  {
    hide LeadingDigits;
    var t := d + rest;
    assert forall i :: 0 <= i < |d| ==> t[i] == d[i];
    assert |t| > |d| ==> t[|d|] == rest[0];
  }

  lemma ReadFieldIff(t: string, lo: nat, hi: nat, f: Field)
    ensures ReadField(t, lo, hi) == Some(f)
       <==> t == f.digits + ("." + f.rest) && AllDigits(f.digits) && lo <= |f.digits| <= hi
  {
    if t == f.digits + ("." + f.rest) && AllDigits(f.digits) {
      LeadingDigitsOf(f.digits, "." + f.rest);
      assert t[|f.digits|..] == "." + f.rest;
      assert t[|f.digits| + 1..] == t[|f.digits|..][1..];
    }
  }

  lemma ReadDayIff(t: string, f: Field)
    ensures ReadDay(t) == Some(f)
       <==> t == f.digits + f.rest && AllDigits(f.digits) && 1 <= |f.digits| <= 2 && IsSuffix(f.rest)
  {
    if t == f.digits + f.rest && AllDigits(f.digits) && IsSuffix(f.rest) {
      LeadingDigitsOf(f.digits, f.rest);
    }
  }

  lemma SuffixIff(s: string)
    ensures IsSuffix(s)
       <==> && (s != "" ==> s[0] == '.' || s[0] == '-')
            && forall i :: 0 <= i < |s| ==> s[i] !in {'\n', '\r', '\U{2028}', '\U{2029}'}
  {
  }

  /** The pass finds a reading exactly when there is one, and there is never a second. */
  lemma MatchIff(t: string, c: CalVer)
    ensures MatchCalVer(t) == Some(c) <==> Matches(t, c)
  {
    hide ReadField, ReadDay, AllDigits, IsSuffix;
    SuffixIff(c.suffix);
    var year := if ReadField(t, 4, 4).Some? then ReadField(t, 4, 4).value else Field("", "");
    var month := if ReadField(year.rest, 1, 2).Some? then ReadField(year.rest, 1, 2).value else Field("", "");
    ReadFieldIff(t, 4, 4, year);
    ReadFieldIff(year.rest, 1, 2, month);
    ReadDayIff(month.rest, Field(c.day, c.suffix));
    ReadFieldIff(t, 4, 4, Field(c.year, c.month + ("." + (c.day + c.suffix))));
    ReadFieldIff(c.month + ("." + (c.day + c.suffix)), 1, 2, Field(c.month, c.day + c.suffix));
    ReadDayIff(c.day + c.suffix, Field(c.day, c.suffix));
  }

  // ---------- Floors ----------

  datatype Floors = Floors(dateKey: nat, legacyFloor: nat, laneFloor: nat, lane: nat)

  function LaneOf(suffix: string): (lane: nat)
    ensures lane <= 90
  {
    if suffix == "" then 90
    else
      var digits := TrailingDigits(suffix);
      if digits == "" then 1
      else if Value(digits) < 89 then Value(digits) else 89
  }

  function SparkleBuildFloorsFromShortVersion(shortVersion: string): Option<Floors> {
    match MatchCalVer(Trim(shortVersion))
    case None => None
    case Some(c) =>
      var year, month, day := Value(c.year), Value(c.month), Value(c.day);
      if month < 1 || month > 12 || day < 1 || day > 31 then None
      else
        var dateKey := Value(Decimal(year) + Pad2(month) + Pad2(day));
        var lane := LaneOf(c.suffix);
        Some(Floors(dateKey,
                    Value(Decimal(dateKey) + "0"),
                    Value(Decimal(dateKey) + Pad2(lane)),
                    lane))
  }

  function CanonicalSparkleBuildFromVersion(shortVersion: string): Option<nat> {
    match SparkleBuildFloorsFromShortVersion(shortVersion)
    case None => None
    case Some(f) => Some(f.laneFloor)
  }

  /** A calendar version: date, and the lane within the day. */
  datatype Stamp = Stamp(year: nat, month: nat, day: nat, lane: nat) {
    predicate Valid() {
      year < 10000 && 1 <= month <= 12 && 1 <= day <= 31 && lane <= 90
    }

    predicate DateBefore(o: Stamp) {
      year < o.year || (year == o.year && (month < o.month || (month == o.month && day < o.day)))
    }

    predicate SameDate(o: Stamp) { year == o.year && month == o.month && day == o.day }

    predicate Before(o: Stamp) { DateBefore(o) || (SameDate(o) && lane < o.lane) }
  }

  function StampOf(c: CalVer): Stamp {
    Stamp(Value(c.year), Value(c.month), Value(c.day), LaneOf(c.suffix))
  }

  ghost predicate Reads(shortVersion: string, s: Stamp) {
    s.Valid() &&
    exists c :: Matches(Trim(shortVersion), c) &&
      s == StampOf(c)
  }

  function FloorsOf(s: Stamp): Floors {
    var dateKey := s.year * 10000 + s.month * 100 + s.day;
    Floors(dateKey, dateKey * 10, dateKey * 100 + s.lane, s.lane)
  }

  lemma {:induction false} ValueBounded(d: string)
    ensures Value(d) < Pow10(|d|)
  {
    if d != "" {
      ValueBounded(d[..|d| - 1]);
    }
  }

  lemma PlaceValues()
    ensures Pow10(1) == 10 && Pow10(2) == 100 && Pow10(4) == 10000
  {
    assert Pow10(3) == 10 * Pow10(2);
  }

  lemma {:induction false} GluedDate(year: nat, month: nat, day: nat)
    requires month < 100 && day < 100
    ensures Value(Decimal(year) + Pad2(month) + Pad2(day)) == year * 10000 + month * 100 + day
  {
    hide Value, Decimal, Pad2;
    PlaceValues();
    ValueOfConcat(Decimal(year) + Pad2(month), Pad2(day));
    ValueOfConcat(Decimal(year), Pad2(month));
  }

  lemma {:induction false} GluedLane(dateKey: nat, lane: nat)
    requires lane < 100
    ensures Value(Decimal(dateKey) + "0") == dateKey * 10
    ensures Value(Decimal(dateKey) + Pad2(lane)) == dateKey * 100 + lane
  {
    PlaceValues();
    assert Value("0") == 0;
    hide Value, Decimal, Pad2;
    ValueOfConcat(Decimal(dateKey), "0");
    ValueOfConcat(Decimal(dateKey), Pad2(lane));
  }

  lemma FloorsOfMatch(shortVersion: string, c: CalVer)
    requires MatchCalVer(Trim(shortVersion)) == Some(c)
    ensures StampOf(c).Valid() ==>
      SparkleBuildFloorsFromShortVersion(shortVersion) == Some(FloorsOf(StampOf(c)))
    ensures !StampOf(c).Valid() ==> SparkleBuildFloorsFromShortVersion(shortVersion) == None
  {
    MatchIff(Trim(shortVersion), c);
    hide MatchCalVer, Value, Decimal, Pad2, Trim, LaneOf, AllDigits, IsSuffix, Written;
    ValueBounded(c.year);
    PlaceValues();
    var s := StampOf(c);
    if 1 <= s.month <= 12 && 1 <= s.day <= 31 {
      GluedDate(s.year, s.month, s.day);
      GluedLane(FloorsOf(s).dateKey, s.lane);
    }
  }

  lemma OnlyReading(v: string, s: Stamp, c: CalVer)
    requires Reads(v, s) && MatchCalVer(Trim(v)) == Some(c)
    ensures s == StampOf(c)
  {
    hide MatchCalVer, Matches, Trim;
    var c' :| Matches(Trim(v), c') && s == StampOf(c');
    MatchIff(Trim(v), c');
  }

  /** Floors exist exactly for calendar versions, and the glued digits are the stamp's arithmetic. */
  lemma FloorsIff(shortVersion: string, f: Floors)
    ensures SparkleBuildFloorsFromShortVersion(shortVersion) == Some(f)
       <==> exists s :: Reads(shortVersion, s) && f == FloorsOf(s)
  {
    var t := Trim(shortVersion);
    if MatchCalVer(t).None? {
      forall s | Reads(shortVersion, s) ensures false {
        var c :| Matches(t, c) && s == StampOf(c);
        MatchIff(t, c);
      }
    } else {
      hide MatchCalVer, Matches, Trim, SparkleBuildFloorsFromShortVersion;
      var c := MatchCalVer(t).value;
      MatchIff(t, c);
      FloorsOfMatch(shortVersion, c);
      if StampOf(c).Valid() {
        assert Reads(shortVersion, StampOf(c));
      }
      forall s | Reads(shortVersion, s) ensures s == StampOf(c) {
        OnlyReading(shortVersion, s, c);
      }
    }
  }

  /** Comparing build numbers is comparing dates, then lanes. */
  lemma FloorsEmbedOrder(a: Stamp, b: Stamp)
    requires a.Valid() && b.Valid()
    ensures FloorsOf(a).laneFloor < FloorsOf(b).laneFloor <==> a.Before(b)
    ensures FloorsOf(a).laneFloor == FloorsOf(b).laneFloor <==> a == b
    ensures FloorsOf(a).dateKey < FloorsOf(b).dateKey <==> a.DateBefore(b)
  {
  }

  const LANE_BUILD_MIN: nat := 1_000_000_000

  /** The two numbering schemes do not overlap once years have four digits, and only then. */
  lemma SchemesApart(s: Stamp)
    requires s.Valid()
    ensures FloorsOf(s).legacyFloor < 1_000_000_000
    ensures 1_000_000_000 <= FloorsOf(s).laneFloor <==> s.year >= 1000
    ensures FloorsOf(s).legacyFloor < FloorsOf(s).laneFloor
  {
  }

  /** Build numbers rank versions by date, and within a day by lane. */
  lemma BuildsRankVersions(v: string, w: string, a: Stamp, b: Stamp)
    requires Reads(v, a) && Reads(w, b)
    ensures CanonicalSparkleBuildFromVersion(v).Some? && CanonicalSparkleBuildFromVersion(w).Some?
    ensures CanonicalSparkleBuildFromVersion(v).value < CanonicalSparkleBuildFromVersion(w).value <==> a.Before(b)
  {
    hide SparkleBuildFloorsFromShortVersion, Stamp.Before;
    assert a.Valid() && b.Valid();
    hide Reads, FloorsOf;
    FloorsIff(v, FloorsOf(a));
    FloorsIff(w, FloorsOf(b));
    FloorsEmbedOrder(a, b);
  }

  /**
   * Within a day: the plain release comes last, an unnumbered suffix first unless numbered 0 or 1,
   * and numbers rank as themselves until they all tie at 89.
   */
  lemma {:induction false} LanesWithinADay(a: string, b: string)
    ensures LaneOf(a) == 90 <==> a == ""
    ensures a != "" && TrailingDigits(a) == "" ==> LaneOf(a) == 1
    ensures a != "" && b != "" && TrailingDigits(a) != "" && TrailingDigits(b) != "" ==>
      (LaneOf(a) < LaneOf(b) <==>
        Value(TrailingDigits(a)) < Value(TrailingDigits(b)) && Value(TrailingDigits(a)) < 89)
  {
  }

  lemma {:induction false} TrailingDigitsOf(front: string, digits: string)
    requires AllDigits(digits) && (front != "" ==> !IsDigit(front[|front| - 1]))
    ensures TrailingDigits(front + digits) == digits
    decreases |digits|
  {
    if digits == "" {
      assert front + digits == front;
    } else {
      var n := |digits| - 1;
      assert (front + digits)[..|front| + n] == front + digits[..n];
      TrailingDigitsOf(front, digits[..n]);
    }
  }

  /** The number at the end of a suffix is its lane, up to 89; a suffix without one has lane 1. */
  lemma {:induction false} NumberedLane(front: string, digits: string)
    requires front != "" && !IsDigit(front[|front| - 1]) && AllDigits(digits)
    ensures digits != "" && Value(digits) <= 89 ==> LaneOf(front + digits) == Value(digits)
    ensures digits != "" && Value(digits) >= 89 ==> LaneOf(front + digits) == 89
    ensures digits == "" ==> LaneOf(front + digits) == 1
  {
    TrailingDigitsOf(front, digits);
    hide TrailingDigits;
  }

  const BETA := CalVer("2026", "3", "2", "-beta.3")

  lemma BetaSpaces()
    ensures IsSpace(' ') && !IsSpace('2') && !IsSpace('3')
  {
  }

  lemma {:induction false} BetaTrim()
    ensures Trim(" 2026.3.2-beta.3") == "2026.3.2-beta.3"
  {
    var v, t := " 2026.3.2-beta.3", "2026.3.2-beta.3";
    BetaSpaces();
    hide IsSpace;
    assert v[1..] == t && v[0] == ' ' && t[0] == '2' && t[|t| - 1] == '3';
    assert TrimStart(t) == t && TrimStart(v) == t && TrimEnd(t) == t;
  }

  lemma {:induction false} BetaIsRead()
    ensures Matches("2026.3.2-beta.3", BETA)
  {
    assert Written(BETA) == "2026.3.2-beta.3";
  }

  lemma BetaDate()
    ensures Value("2026") == 2026 && Value("3") == 3 && Value("2") == 2
  {
    ValueOfSnoc("202", '6');
    ValueOfSnoc("20", '2');
    ValueOfSnoc("2", '0');
    ValueOfSnoc("", '2');
    ValueOfSnoc("", '3');
    assert Value("") == 0;
    hide Value;
    assert "202" + ['6'] == "2026" && "20" + ['2'] == "202" && "2" + ['0'] == "20";
    assert "" + ['2'] == "2" && "" + ['3'] == "3";
  }

  lemma BetaStamp()
    ensures StampOf(BETA) == Stamp(2026, 3, 2, 3)
  {
    hide LaneOf, Value;
    BetaDate();
    NumberedLane("-beta.", "3");
    assert "-beta." + "3" == "-beta.3";
  }

  /** Concretely: the third beta of the second of March 2026. */
  lemma {:induction false} BetaBuild()
    ensures CanonicalSparkleBuildFromVersion(" 2026.3.2-beta.3") == Some(2026030203)
  {
    hide Matches, StampOf, SparkleBuildFloorsFromShortVersion, Trim;
    BetaTrim();
    BetaIsRead();
    BetaStamp();
    var s := Stamp(2026, 3, 2, 3);
    assert Reads(" 2026.3.2-beta.3", s);
    FloorsIff(" 2026.3.2-beta.3", FloorsOf(s));
  }
}
