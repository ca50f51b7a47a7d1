/**
 The release feed check: every calendar-versioned entry must carry a build number above its floor,
 the old floor before some cutover date and the lane floor from then on.
 */
module Appcast {
  import opened Collections
  import opened Decimals
  import opened Optional
  import opened SparkleBuild
  import opened Text

  /** The least build number that is read as a lane build. */
  const LANE_BUILD_MIN: nat := 1_000_000_000

  /** From this date on lane floors are required whatever the feed holds. */
  const ADOPTION_DATE: nat := 20260227

  /** One feed entry: the text of three tags, trimmed. */
  datatype Item = Item(title: Option<string>, shortVersion: Option<string>, sparkleVersion: Option<string>)

  datatype Release = Release(title: string, build: nat, floors: Floors)

  datatype Error =
    | NoItems
    | MissingVersion(title: string)
    | NotNumeric(title: string, version: string)
    | BelowFloor(title: string, build: nat, expectLane: bool, floor: nat)

  function Title(item: Item): string {
    if item.title.Some? then item.title.value else "unknown"
  }

  function TagText(tag: Option<string>): string {
    if tag.Some? then tag.value else ""
  }

  predicate HasBuild(item: Item) {
    TagText(item.sparkleVersion) != "" && AllDigits(TagText(item.sparkleVersion))
  }

  /** The calendar-versioned release an entry announces. */
  function ReleaseOf(item: Item): Option<Release> {
    if !HasBuild(item) || TagText(item.shortVersion) == "" then None
    else
      var floors := FloorsFromShortVersion(TagText(item.shortVersion));
      if floors.None? then None
      else Some(Release(Title(item), DigitsValue(TagText(item.sparkleVersion)), floors.value))
  }

  function ItemErrors(item: Item): seq<Error> {
    if HasBuild(item) then []
    else if TagText(item.sparkleVersion) == "" then [MissingVersion(Title(item))]
    else [NotNumeric(Title(item), TagText(item.sparkleVersion))]
  }

  function VersionErrors(items: seq<Item>): seq<Error> {
    if items == [] then [] else VersionErrors(items[..|items| - 1]) + ItemErrors(items[|items| - 1])
  }

  function Releases(items: seq<Item>): seq<Release> {
    if items == [] then []
    else
      var release := ReleaseOf(items[|items| - 1]);
      Releases(items[..|items| - 1]) + if release.Some? then [release.value] else []
  }

  function LaneDates(releases: seq<Release>): seq<nat> {
    if releases == [] then []
    else
      var last := releases[|releases| - 1];
      LaneDates(releases[..|releases| - 1]) + if last.build >= LANE_BUILD_MIN then [last.floors.dateKey] else []
  }

  /** The first date after sorting. */
  function Earliest(dates: seq<nat>): (d: nat)
    requires dates != []
    ensures d in dates && forall e :: e in dates ==> d <= e
  {
    var first := dates[0];
    if |dates| == 1 then first
    else
      var d := Earliest(dates[1..]);
      assert dates == [first] + dates[1..];
      if d < first then d else first
  }

  /** The date of the earliest lane build, or the adoption date if that comes first. */
  function EffectiveCutover(releases: seq<Release>): nat {
    var dates := LaneDates(releases);
    if dates != [] && Earliest(dates) < ADOPTION_DATE then Earliest(dates) else ADOPTION_DATE
  }

  predicate ExpectsLane(r: Release, cutover: nat) {
    r.build >= LANE_BUILD_MIN || r.floors.dateKey >= cutover
  }

  function FloorOf(r: Release, cutover: nat): nat {
    if ExpectsLane(r, cutover) then r.floors.laneFloor else r.floors.legacyFloor
  }

  function ReleaseErrors(r: Release, cutover: nat): seq<Error> {
    if r.build < FloorOf(r, cutover) then
      [BelowFloor(r.title, r.build, ExpectsLane(r, cutover), FloorOf(r, cutover))]
    else []
  }

  function FloorErrors(releases: seq<Release>, cutover: nat): seq<Error> {
    if releases == [] then []
    else FloorErrors(releases[..|releases| - 1], cutover) + ReleaseErrors(releases[|releases| - 1], cutover)
  }

  function FeedErrors(items: seq<Item>): seq<Error> {
    Missing(items) + VersionErrors(items) + FloorErrors(Releases(items), EffectiveCutover(Releases(items)))
  }

  /** The loop body: what is wrong with an entry, and the release it announces. */
  method CheckItem(item: Item) returns (errors: seq<Error>, release: Option<Release>)
    ensures errors == ItemErrors(item) && release == ReleaseOf(item)
  {
    var title := Title(item);
    var sparkleVersion := TagText(item.sparkleVersion);
    if sparkleVersion == "" {
      return [MissingVersion(title)], None;
    }
    if !AllDigits(sparkleVersion) {
      return [NotNumeric(title, sparkleVersion)], None;
    }
    if TagText(item.shortVersion) == "" {
      return [], None;
    }
    var floors := FloorsFromShortVersion(TagText(item.shortVersion));
    if floors.None? {
      return [], None;
    }
    return [], Some(Release(title, DigitsValue(sparkleVersion), floors.value));
  }

  function Missing(items: seq<Item>): seq<Error> {
    if items == [] then [NoItems] else []
  }

  lemma NextItem(items: seq<Item>, i: nat)
    requires i < |items|
    ensures VersionErrors(items[..i + 1]) == VersionErrors(items[..i]) + ItemErrors(items[i])
    ensures var release := ReleaseOf(items[i]);
            Releases(items[..i + 1]) == Releases(items[..i]) + if release.Some? then [release.value] else []
  {
    assert items[..i + 1][..i] == items[..i];
  }

  lemma NextRelease(releases: seq<Release>, cutover: nat, i: nat)
    requires i < |releases|
    ensures FloorErrors(releases[..i + 1], cutover)
         == FloorErrors(releases[..i], cutover) + ReleaseErrors(releases[i], cutover)
  {
    assert releases[..i + 1][..i] == releases[..i];
  }

  method CollectVersions(items: seq<Item>) returns (errors: seq<Error>, calverItems: seq<Release>)
    ensures errors == Missing(items) + VersionErrors(items)
    ensures calverItems == Releases(items)
  {
    errors, calverItems := [], [];
    if |items| == 0 {
      errors := [NoItems];
    }
    for i := 0 to |items|
      invariant errors == Missing(items) + VersionErrors(items[..i])
      invariant calverItems == Releases(items[..i])
    {
      var found, release := CheckItem(items[i]);
      NextItem(items, i);
      Associates(Missing(items), VersionErrors(items[..i]), found);
      errors := errors + found;
      calverItems := calverItems + if release.Some? then [release.value] else [];
    }
    assert items[..|items|] == items;
  }

  method CheckRelease(item: Release, cutover: nat) returns (errors: seq<Error>)
    ensures errors == ReleaseErrors(item, cutover)
  {
    var expectLane := item.build >= LANE_BUILD_MIN || item.floors.dateKey >= cutover;
    var floor := if expectLane then item.floors.laneFloor else item.floors.legacyFloor;
    if item.build < floor {
      return [BelowFloor(item.title, item.build, expectLane, floor)];
    }
    return [];
  }

  /** The second loop. */
  method CheckReleases(calverItems: seq<Release>, cutover: nat) returns (errors: seq<Error>)
    ensures errors == FloorErrors(calverItems, cutover)
  {
    errors := [];
    for i := 0 to |calverItems|
      invariant errors == FloorErrors(calverItems[..i], cutover)
    {
      var found := CheckRelease(calverItems[i], cutover);
      NextRelease(calverItems, cutover, i);
      errors := errors + found;
    }
    assert calverItems[..|calverItems|] == calverItems;
  }

  method CollectAppcastErrors(items: seq<Item>) returns (errors: seq<Error>)
    ensures errors == FeedErrors(items)
  {
    var versionErrors, calverItems := CollectVersions(items);
    var floorErrors := CheckReleases(calverItems, EffectiveCutover(calverItems));
    errors := versionErrors + floorErrors;
  }

  // ----- what an accepted feed looks like -----

  /** Legacy builds before the cutover, lane builds from then on. */
  predicate InOrder(r: Release, cutover: nat) {
    if r.floors.dateKey < cutover then r.floors.legacyFloor <= r.build < 1000000000
    else r.floors.laneFloor <= r.build
  }

  ghost predicate RespectsCutover(releases: seq<Release>, cutover: nat) {
    cutover <= 20260227 && forall r :: r in releases ==> InOrder(r, cutover)
  }

  ghost predicate RespectsSomeCutover(releases: seq<Release>) {
    exists cutover :: RespectsCutover(releases, cutover)
  }

  predicate AllHaveBuilds(items: seq<Item>) {
    forall item :: item in items ==> HasBuild(item)
  }

  lemma {:induction false} VersionErrorsMeaning(items: seq<Item>)
    ensures VersionErrors(items) == [] <==> AllHaveBuilds(items)
  {
    if items != [] {
      VersionErrorsMeaning(items[..|items| - 1]);
      InLonger(items, items[|items| - 1]);
    }
  }

  lemma {:induction false} FloorErrorsMeaning(releases: seq<Release>, cutover: nat)
    ensures FloorErrors(releases, cutover) == []
            <==> forall r :: r in releases ==> FloorOf(r, cutover) <= r.build
  {
    if releases != [] {
      var rest, last := releases[..|releases| - 1], releases[|releases| - 1];
      FloorErrorsMeaning(rest, cutover);
      assert releases == rest + [last];
    }
  }

  lemma {:induction false} LaneDatesMeaning(releases: seq<Release>, d: nat)
    ensures d in LaneDates(releases)
            <==> exists r :: r in releases && r.build >= LANE_BUILD_MIN && r.floors.dateKey == d
  {
    if releases != [] {
      var rest, last := releases[..|releases| - 1], releases[|releases| - 1];
      LaneDatesMeaning(rest, d);
      assert releases == rest + [last];
    }
  }

  lemma {:induction false} ReleasesMeaning(items: seq<Item>, r: Release)
    ensures r in Releases(items) <==> exists item :: item in items && ReleaseOf(item) == Some(r)
  {
    if items != [] {
      var rest, last := items[..|items| - 1], items[|items| - 1];
      ReleasesMeaning(rest, r);
      var release := ReleaseOf(last);
      assert Releases(items) == Releases(rest) + if release.Some? then [release.value] else [];
      InLonger(items, last);
    }
  }

  lemma InLonger<T>(s: seq<T>, last: T)
    requires s != [] && last == s[|s| - 1]
    ensures forall x :: x in s <==> x in s[..|s| - 1] || x == last
  {
    assert s == s[..|s| - 1] + [last];
  }

  predicate AllProper(releases: seq<Release>) {
    forall r :: r in releases ==> ProperFloors(r.floors)
  }

  lemma ReleasesAreProper(items: seq<Item>)
    ensures AllProper(Releases(items))
  {
    forall r | r in Releases(items)
      ensures ProperFloors(r.floors)
    {
      ReleasesMeaning(items, r);
      var item :| item in items && ReleaseOf(item) == Some(r);
      FloorsAreProper(TagText(item.shortVersion));
    }
  }

  /** The cutover the check works out is never before one the feed respects. */
  lemma EffectiveIsLatest(releases: seq<Release>, cutover: nat)
    requires RespectsCutover(releases, cutover)
    ensures cutover <= EffectiveCutover(releases)
  {
    var dates := LaneDates(releases);
    if dates != [] {
      LaneDatesMeaning(releases, Earliest(dates));
      var r :| r in releases && r.build >= LANE_BUILD_MIN && r.floors.dateKey == Earliest(dates);
      assert InOrder(r, cutover);
    }
  }

  /** An accepted feed respects the cutover that the check works out. */
  lemma EffectiveIsRespected(releases: seq<Release>)
    requires FloorErrors(releases, EffectiveCutover(releases)) == []
    ensures RespectsCutover(releases, EffectiveCutover(releases))
  {
    var cutover := EffectiveCutover(releases);
    FloorErrorsMeaning(releases, cutover);
    forall r | r in releases
      ensures InOrder(r, cutover)
    {
      assert FloorOf(r, cutover) <= r.build;
      LaneDatesMeaning(releases, r.floors.dateKey);
      if r.build >= LANE_BUILD_MIN {
        assert r.floors.dateKey in LaneDates(releases);
      }
    }
  }

  /** Conversely, if any cutover is respected then no release is below its floor. */
  lemma RespectedIsAccepted(releases: seq<Release>, cutover: nat)
    requires AllProper(releases) && RespectsCutover(releases, cutover)
    ensures FloorErrors(releases, EffectiveCutover(releases)) == []
  {
    var effective := EffectiveCutover(releases);
    EffectiveIsLatest(releases, cutover);
    FloorErrorsMeaning(releases, effective);
    forall r | r in releases
      ensures FloorOf(r, effective) <= r.build
    {
      assert ProperFloors(r.floors) && InOrder(r, cutover);
    }
  }

  lemma FloorsKeptIffCutover(releases: seq<Release>)
    requires AllProper(releases)
    ensures FloorErrors(releases, EffectiveCutover(releases)) == []
            <==> RespectsSomeCutover(releases)
  {
    if FloorErrors(releases, EffectiveCutover(releases)) == [] {
      EffectiveIsRespected(releases);
    }
    if cutover :| RespectsCutover(releases, cutover) {
      RespectedIsAccepted(releases, cutover);
    }
  }

  /** The check passes exactly when every entry has a build and some cutover date is respected. */
  lemma AcceptedIffCutover(items: seq<Item>)
    ensures FeedErrors(items) == [] <==>
            && items != []
            && AllHaveBuilds(items)
            && RespectsSomeCutover(Releases(items))
  {
    VersionErrorsMeaning(items);
    ReleasesAreProper(items);
    FloorsKeptIffCutover(Releases(items));
    var missing := Missing(items);
    var floors := FloorErrors(Releases(items), EffectiveCutover(Releases(items)));
    assert FeedErrors(items) == missing + VersionErrors(items) + floors;
    EmptyConcat(missing, VersionErrors(items), floors);
  }

  lemma EmptyConcat<T>(a: seq<T>, b: seq<T>, c: seq<T>)
    ensures a + b + c == [] <==> a == [] && b == [] && c == []
  {
    assert |a + b + c| == |a| + |b| + |c|;
  }

  /** Every build before the cutover is below every build after it, for releases with these floors. */
  ghost predicate Separated(before: Floors, after: Floors, cutover: nat) {
    forall title, title', b: nat, a: nat ::
      InOrder(Release(title, b, before), cutover) && InOrder(Release(title', a, after), cutover) ==> b < a
  }

  /** A cutover separates the builds of two dates exactly when the later date is in the year 1000 or after. */
  lemma SeparatedIffLateYear(before: Floors, after: Floors, cutover: nat)
    requires ProperFloors(before) && ProperFloors(after)
    requires before.dateKey < cutover <= after.dateKey && cutover <= 20260227
    ensures Separated(before, after, cutover) <==> after.dateKey >= 10000000
  {
    var low, high := Release("", LANE_BUILD_MIN - 1, before), Release("", after.laneFloor, after);
    assert InOrder(low, cutover) && InOrder(high, cutover);
  }

  /** So in an accepted feed of the year 1000 or later legacy builds are below 10^9 and lane builds are not. */
  lemma CutoverSeparatesBuilds(items: seq<Item>, cutover: nat, before: Release, after: Release)
    requires RespectsCutover(Releases(items), cutover)
    requires before in Releases(items) && before.floors.dateKey < cutover
    requires after in Releases(items) && cutover <= after.floors.dateKey
    requires after.floors.dateKey >= 10000000
    ensures before.build < 1000000000 <= after.build
  {
    ReleasesAreProper(items);
    assert InOrder(before, cutover) && InOrder(after, cutover);
  }

  // ----- a feed of early years -----

  /** A final release: its version and its build. */
  datatype Final = Final(version: Calver, build: nat)

  predicate IsFinal(f: Final) {
    IsCalver(f.version) && HasDate(f.version) && f.version.suffix == ""
  }

  function FinalItem(f: Final): Item {
    Item(None, Some(Written(f.version)), Some(Digits(f.build)))
  }

  function FinalRelease(f: Final): Release
    requires IsFinal(f)
  {
    var date := DateNumber(f.version);
    Release("unknown", f.build, Floors(date, date * 10, date * 100 + 90, 90))
  }

  predicate AllFinal(fs: seq<Final>) {
    forall i :: 0 <= i < |fs| ==> IsFinal(fs[i])
  }

  function FinalItems(fs: seq<Final>): (items: seq<Item>)
    ensures |items| == |fs|
  {
    if fs == [] then [] else FinalItems(fs[..|fs| - 1]) + [FinalItem(fs[|fs| - 1])]
  }

  function FinalReleases(fs: seq<Final>): (releases: seq<Release>)
    requires AllFinal(fs)
    ensures |releases| == |fs|
    ensures forall i :: 0 <= i < |fs| ==> releases[i] == FinalRelease(fs[i])
  {
    if fs == [] then [] else FinalReleases(fs[..|fs| - 1]) + [FinalRelease(fs[|fs| - 1])]
  }

  /** A version written without a suffix is read as it stands. */
  lemma WrittenIsRead(v: Calver)
    requires IsCalver(v) && v.suffix == ""
    ensures Written(v) != "" && ParseCalver(Trim(Written(v))) == Some(v)
  {
    var s := Written(v);
    assert s[0] == v.year[0] && s[|s| - 1] == v.day[|v.day| - 1];
    TrimOfTrimmed(s);
    ParseWritten(v);
  }

  lemma FinalFloors(f: Final)
    requires IsFinal(f)
    ensures FloorsFromShortVersion(Written(f.version)) == Some(FinalRelease(f).floors) && Written(f.version) != ""
  {
    WrittenIsRead(f.version);
    FloorsAreRead(Written(f.version), f.version);
  }

  /** An entry with a build announces what its version says. */
  lemma AnnouncedRelease(version: string, build: string)
    requires version != "" && build != "" && AllDigits(build)
    ensures var item, floors := Item(None, Some(version), Some(build)), FloorsFromShortVersion(version);
            && HasBuild(item)
            && ReleaseOf(item) == if floors.None? then None
                                  else Some(Release("unknown", DigitsValue(build), floors.value))
  {
  }

  /** Any list of final releases can be a feed. */
  lemma {:induction false} FinalsAreAnnounced(fs: seq<Final>)
    requires AllFinal(fs)
    ensures Releases(FinalItems(fs)) == FinalReleases(fs) && AllHaveBuilds(FinalItems(fs))
  {
    if fs != [] {
      var n := |fs| - 1;
      FinalsAreAnnounced(fs[..n]);
      FinalFloors(fs[n]);
      DigitsRoundTrip(fs[n].build);
      AnnouncedRelease(Written(fs[n].version), Digits(fs[n].build));
      assert FinalItems(fs)[..n] == FinalItems(fs[..n]);
      assert FinalItems(fs)[n] == FinalItem(fs[n]);
    }
  }

  function EarlyDay(year: string, month: string, day: string, build: nat): Final {
    Final(Calver(year, month, day, ""), build)
  }

  function EarlyFeed(): seq<Final> {
    [ EarlyDay("0099", "1", "1", 999999999), EarlyDay("0099", "2", "1", 9902010),
      EarlyDay("0100", "1", "1", 1000000000), EarlyDay("0100", "1", "2", 100010290) ]
  }

  lemma OneDigit(s: string)
    requires |s| == 1 && IsDigit(s[0])
    ensures DigitsValue(s) == s[0] as int - '0' as int
  {
    assert s[..0] == "";
  }

  lemma FourDigits(s: string)
    requires |s| == 4 && AllDigits(s)
    ensures DigitsValue(s)
         == 1000 * (s[0] as int - 48) + 100 * (s[1] as int - 48) + 10 * (s[2] as int - 48) + s[3] as int - 48
  {
    OneDigit(s[..1]);
    assert s[..2][..1] == s[..1] && s[..3][..2] == s[..2];
    assert DigitsValue(s[..2]) == 10 * DigitsValue(s[..1]) + (s[1] as int - 48);
    assert DigitsValue(s[..3]) == 10 * DigitsValue(s[..2]) + (s[2] as int - 48);
  }

  lemma EarlyDate(year: string, month: string, day: string, build: nat)
    requires |year| == 4 && AllDigits(year)
    requires |month| == 1 && IsDigit(month[0]) && month != "0" && |day| == 1 && IsDigit(day[0]) && day != "0"
    ensures IsFinal(EarlyDay(year, month, day, build))
    ensures DateNumber(EarlyDay(year, month, day, build).version)
         == 10000000 * (year[0] as int - 48) + 1000000 * (year[1] as int - 48) + 100000 * (year[2] as int - 48)
            + 10000 * (year[3] as int - 48) + 100 * (month[0] as int - 48) + day[0] as int - 48
  {
    FourDigits(year);
    OneDigit(month);
    OneDigit(day);
    assert month == [month[0]] && day == [day[0]];
  }

  lemma EarlyFeedDates()
    ensures AllFinal(EarlyFeed())
    ensures var feed := FinalReleases(EarlyFeed());
            && feed[0].floors.dateKey == 990101 && feed[1].floors.dateKey == 990201
            && feed[2].floors.dateKey == 1000101 && feed[3].floors.dateKey == 1000102
  {
    EarlyDate("0099", "1", "1", 999999999);
    EarlyDate("0099", "2", "1", 9902010);
    EarlyDate("0100", "1", "1", 1000000000);
    EarlyDate("0100", "1", "2", 100010290);
  }

  /**
   Before the year 1000 an accepted feed can mix: here every respected cutover lies after 0099.2.1
   and not after 0100.1.1, yet 0099.1.1 has a higher build than 0100.1.2.
   */
  lemma EarlyYearsCanMix(cutover: nat)
    ensures var items := FinalItems(EarlyFeed());
            var releases := Releases(items);
            && FeedErrors(items) == [] && |releases| == 4
            && (RespectsCutover(releases, cutover) ==>
                  releases[0].floors.dateKey < cutover <= releases[3].floors.dateKey)
            && releases[0].build > releases[3].build
  {
    var items := FinalItems(EarlyFeed());
    EarlyFeedDates();
    var feed := FinalReleases(EarlyFeed());
    FinalsAreAnnounced(EarlyFeed());
    assert feed[1] in feed && feed[2] in feed;
    if RespectsCutover(feed, cutover) {
      assert InOrder(feed[1], cutover) && InOrder(feed[2], cutover);
    }
    EarlyFeedRespects();
    AcceptedIffCutover(items);
  }

  lemma EarlyFeedRespects()
    ensures AllFinal(EarlyFeed()) && RespectsSomeCutover(FinalReleases(EarlyFeed()))
  {
    EarlyFeedDates();
    var feed := FinalReleases(EarlyFeed());
    forall r | r in feed
      ensures InOrder(r, 1000101)
    {
      assert r == feed[0] || r == feed[1] || r == feed[2] || r == feed[3];
    }
    assert RespectsCutover(feed, 1000101);
  }
}
