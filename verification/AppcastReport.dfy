/** Which errors the release feed check reports, entry by entry. */
module AppcastReport {
  import opened Collections
  import opened Decimals
  import opened Optional
  import opened SparkleBuild
  import opened Text
  import opened Appcast

  /** The title of an entry, or "unknown". */
  predicate IsTitled(item: Item, title: string) {
    item.title == Some(title) || (item.title.None? && title == "unknown")
  }

  /** The build of an entry as written: one digit or more. */
  predicate HasBuildText(item: Item, text: string) {
    item.sparkleVersion == Some(text) && text != "" && forall i :: 0 <= i < |text| ==> '0' <= text[i] <= '9'
  }

  /** An entry without a build is reported as such, one with other characters than digits with its text. */
  ghost predicate IsVersionError(item: Item, e: Error) {
    match e
    case MissingVersion(title) => IsTitled(item, title) && (item.sparkleVersion.None? || item.sparkleVersion == Some(""))
    case NotNumeric(title, version) =>
      && IsTitled(item, title) && item.sparkleVersion == Some(version) && version != ""
      && exists i :: 0 <= i < |version| && !('0' <= version[i] <= '9')
    case _ => false
  }

  ghost predicate IsBuild(item: Item, build: nat) {
    exists text :: HasBuildText(item, text) && AllDigits(text) && DigitsValue(text) == build
  }

  /** Ten times the date, and a hundred times the date plus the lane. */
  function FloorNumbers(v: Calver): Option<Floors>
    requires IsCalver(v)
  {
    var date, lane := DateNumber(v), Lane(v.suffix);
    if HasDate(v) then Some(Floors(date, date * 10, date * 100 + lane, lane)) else None
  }

  /** The floors of the dated calendar version that is written so. */
  ghost predicate AreFloors(version: string, f: Floors) {
    exists v :: IsCalver(v) && Written(v) == version && FloorNumbers(v) == Some(f)
  }

  /** An entry with a build and a dated calendar version is a release with these numbers. */
  ghost predicate Announces(item: Item, r: Release) {
    && IsTitled(item, r.title) && IsBuild(item, r.build)
    && item.shortVersion.Some? && AreFloors(Trim(item.shortVersion.value), r.floors)
  }

  ghost predicate HasSomeBuild(item: Item) {
    exists text :: HasBuildText(item, text)
  }

  lemma ItemErrorIs(item: Item)
    ensures ItemErrors(item) == [] <==> HasSomeBuild(item)
    ensures ItemErrors(item) != [] ==> |ItemErrors(item)| == 1 && IsVersionError(item, ItemErrors(item)[0])
  {
    var text := TagText(item.sparkleVersion);
    if HasBuild(item) {
      assert HasBuildText(item, text);
    } else if text != "" {
      assert exists i :: 0 <= i < |text| && !IsDigit(text[i]);
    }
  }

  /** The positions of the entries without a build. */
  ghost function Unbuilt(items: seq<Item>): set<nat> {
    set i | 0 <= i < |items| && !HasSomeBuild(items[i])
  }

  /** The errors of the first loop, one for each entry without a build. */
  ghost predicate ReportsUnbuilt(items: seq<Item>, errors: seq<Error>, picked: seq<nat>) {
    && Lists(picked, Unbuilt(items)) && |errors| == |picked|
    && forall k :: 0 <= k < |picked| ==> picked[k] < |items| && IsVersionError(items[picked[k]], errors[k])
  }

  /** One entry more, with its error if it has no build. */
  lemma UnbuiltNext(items: seq<Item>, errors: seq<Error>, more: seq<Error>, picked: seq<nat>)
    requires items != [] && ReportsUnbuilt(items[..|items| - 1], errors, picked)
    requires if HasSomeBuild(items[|items| - 1]) then more == []
             else |more| == 1 && IsVersionError(items[|items| - 1], more[0])
    ensures ReportsUnbuilt(items, errors + more, picked + if more == [] then [] else [|items| - 1])
  {
    var n := |items| - 1;
    var before := Unbuilt(items[..n]);
    assert Unbuilt(items) == before + if HasSomeBuild(items[n]) then {} else {n};
    ListsNext(picked, before, n);
  }

  /** The first loop reports exactly the entries without a build, each once and in order. */
  lemma {:induction false} VersionErrorsExactly(items: seq<Item>) returns (picked: seq<nat>)
    ensures ReportsUnbuilt(items, VersionErrors(items), picked)
  {
    if items == [] {
      picked := [];
    } else {
      var n := |items| - 1;
      var init := VersionErrorsExactly(items[..n]);
      ItemErrorIs(items[n]);
      UnbuiltNext(items, VersionErrors(items[..n]), ItemErrors(items[n]), init);
      picked := init + if ItemErrors(items[n]) == [] then [] else [n];
    }
  }

  lemma BuildIs(item: Item, build: nat)
    ensures IsBuild(item, build) <==> HasBuild(item) && DigitsValue(TagText(item.sparkleVersion)) == build
  {
    if HasBuild(item) {
      assert HasBuildText(item, TagText(item.sparkleVersion));
    }
  }

  lemma DatedFloors(shortVersion: string, v: Calver)
    requires ParseCalver(Trim(shortVersion)) == Some(v) && HasDate(v)
    ensures FloorsFromShortVersion(shortVersion) == FloorNumbers(v)
  {
    FloorsAreRead(shortVersion, v);
  }

  lemma FloorsOfVersion(shortVersion: string, v: Calver)
    requires ParseCalver(Trim(shortVersion)) == Some(v)
    ensures FloorsFromShortVersion(shortVersion) == FloorNumbers(v)
  {
    if HasDate(v) {
      DatedFloors(shortVersion, v);
    }
  }

  lemma FloorsAre(shortVersion: string, f: Floors)
    ensures AreFloors(Trim(shortVersion), f) <==> FloorsFromShortVersion(shortVersion) == Some(f)
  {
    if AreFloors(Trim(shortVersion), f) {
      var v :| IsCalver(v) && Written(v) == Trim(shortVersion) && FloorNumbers(v) == Some(f);
      ParsesExactlyTheWritten(Trim(shortVersion), v);
      FloorsOfVersion(shortVersion, v);
    }
    if FloorsFromShortVersion(shortVersion) == Some(f) {
      var v := ParseCalver(Trim(shortVersion)).value;
      ParsesExactlyTheWritten(Trim(shortVersion), v);
      FloorsOfVersion(shortVersion, v);
    }
  }

  lemma NoFloorsForNothing(f: Floors)
    ensures FloorsFromShortVersion("") == None
  {
    assert Trim("") == "";
  }

  lemma ReleaseParts(item: Item, r: Release)
    ensures ReleaseOf(item) == Some(r) <==>
            && HasBuild(item) && DigitsValue(TagText(item.sparkleVersion)) == r.build && Title(item) == r.title
            && TagText(item.shortVersion) != "" && FloorsFromShortVersion(TagText(item.shortVersion)) == Some(r.floors)
  {
  }

  /** An entry is taken for a release exactly if it announces one. */
  lemma ReleaseIs(item: Item, r: Release)
    ensures ReleaseOf(item) == Some(r) <==> Announces(item, r)
  {
    ReleaseParts(item, r);
    BuildIs(item, r.build);
    FloorsAre(TagText(item.shortVersion), r.floors);
    NoFloorsForNothing(r.floors);
  }

  ghost predicate AnnouncesAny(item: Item) {
    exists r :: Announces(item, r)
  }

  /** The positions of the entries that announce a release. */
  ghost function Announcing(items: seq<Item>): set<nat> {
    set i | 0 <= i < |items| && AnnouncesAny(items[i])
  }

  /** The releases taken, one for each entry that announces one. */
  ghost predicate TakesReleases(items: seq<Item>, releases: seq<Release>, picked: seq<nat>) {
    && Lists(picked, Announcing(items)) && |releases| == |picked|
    && forall k :: 0 <= k < |picked| ==> picked[k] < |items| && Announces(items[picked[k]], releases[k])
  }

  /** One entry more, with its release if it announces one. */
  lemma TakesNext(items: seq<Item>, releases: seq<Release>, more: seq<Release>, picked: seq<nat>)
    requires items != [] && TakesReleases(items[..|items| - 1], releases, picked)
    requires if AnnouncesAny(items[|items| - 1]) then |more| == 1 && Announces(items[|items| - 1], more[0])
             else more == []
    ensures TakesReleases(items, releases + more, picked + if more == [] then [] else [|items| - 1])
  {
    var n := |items| - 1;
    var before := Announcing(items[..n]);
    assert Announcing(items) == before + if AnnouncesAny(items[n]) then {n} else {};
    ListsNext(picked, before, n);
  }

  /** The releases are those of the entries that announce one, each once and in order. */
  lemma {:induction false} ReleasesExactly(items: seq<Item>) returns (picked: seq<nat>)
    ensures TakesReleases(items, Releases(items), picked)
  {
    if items == [] {
      picked := [];
    } else {
      var n := |items| - 1;
      var init := ReleasesExactly(items[..n]);
      var release := ReleaseOf(items[n]);
      var more := if release.Some? then [release.value] else [];
      AnnouncesSome(items[n]);
      TakesNext(items, Releases(items[..n]), more, init);
      picked := init + if more == [] then [] else [n];
    }
  }

  lemma AnnouncesSome(item: Item)
    ensures ReleaseOf(item).Some? <==> AnnouncesAny(item)
    ensures ReleaseOf(item).Some? ==> Announces(item, ReleaseOf(item).value)
  {
    if ReleaseOf(item).Some? {
      ReleaseIs(item, ReleaseOf(item).value);
    }
    if AnnouncesAny(item) {
      var r :| Announces(item, r);
      ReleaseIs(item, r);
    }
  }

  /**
   The cutover is the date of the earliest build from 1000000000 on, or the 27th of February 2026 if
   that is earlier or there is no such build.
   */
  lemma CutoverIs(releases: seq<Release>)
    ensures var cutover := EffectiveCutover(releases);
            && cutover <= 20260227
            && (forall r :: r in releases && r.build >= 1000000000 ==> cutover <= r.floors.dateKey)
            && (cutover == 20260227 || exists r :: r in releases && r.build >= 1000000000 && r.floors.dateKey == cutover)
  {
    var dates := LaneDates(releases);
    forall r | r in releases && r.build >= 1000000000
      ensures r.floors.dateKey in dates
    {
      LaneDatesMeaning(releases, r.floors.dateKey);
    }
    if dates != [] {
      LaneDatesMeaning(releases, Earliest(dates));
    }
  }

  /** The floor of a release, and whether it is a lane floor. */
  predicate IsFloor(r: Release, cutover: nat, lane: bool, floor: nat) {
    && (lane <==> r.build >= 1000000000 || r.floors.dateKey >= cutover)
    && floor == if lane then r.floors.laneFloor else r.floors.legacyFloor
  }

  ghost predicate IsTooLow(r: Release, cutover: nat) {
    exists lane, floor :: IsFloor(r, cutover, lane, floor) && r.build < floor
  }

  predicate IsFloorError(r: Release, cutover: nat, e: Error) {
    e.BelowFloor? && e.title == r.title && e.build == r.build && IsFloor(r, cutover, e.expectLane, e.floor)
  }

  lemma ReleaseErrorIs(r: Release, cutover: nat)
    ensures ReleaseErrors(r, cutover) == [] <==> !IsTooLow(r, cutover)
    ensures ReleaseErrors(r, cutover) != [] ==>
              |ReleaseErrors(r, cutover)| == 1 && IsFloorError(r, cutover, ReleaseErrors(r, cutover)[0])
  {
    assert IsFloor(r, cutover, ExpectsLane(r, cutover), FloorOf(r, cutover));
  }

  /** The positions of the releases below their floor. */
  ghost function TooLow(releases: seq<Release>, cutover: nat): set<nat> {
    set i | 0 <= i < |releases| && IsTooLow(releases[i], cutover)
  }

  /** The errors of the second loop, one for each release below its floor. */
  ghost predicate ReportsTooLow(releases: seq<Release>, cutover: nat, errors: seq<Error>, picked: seq<nat>) {
    && Lists(picked, TooLow(releases, cutover)) && |errors| == |picked|
    && forall k :: 0 <= k < |picked| ==>
         picked[k] < |releases| && IsFloorError(releases[picked[k]], cutover, errors[k])
  }

  /** One release more, with its error if it is below its floor. */
  lemma TooLowNext(releases: seq<Release>, cutover: nat, errors: seq<Error>, more: seq<Error>, picked: seq<nat>)
    requires releases != [] && ReportsTooLow(releases[..|releases| - 1], cutover, errors, picked)
    requires if !IsTooLow(releases[|releases| - 1], cutover) then more == []
             else |more| == 1 && IsFloorError(releases[|releases| - 1], cutover, more[0])
    ensures ReportsTooLow(releases, cutover, errors + more, picked + if more == [] then [] else [|releases| - 1])
  {
    var n := |releases| - 1;
    var before := TooLow(releases[..n], cutover);
    assert TooLow(releases, cutover) == before + if IsTooLow(releases[n], cutover) then {n} else {};
    ListsNext(picked, before, n);
  }

  /** The second loop reports exactly the releases below their floor, each once, in order and with their numbers. */
  lemma {:induction false} FloorErrorsExactly(releases: seq<Release>, cutover: nat) returns (picked: seq<nat>)
    ensures ReportsTooLow(releases, cutover, FloorErrors(releases, cutover), picked)
  {
    if releases == [] {
      picked := [];
    } else {
      var n := |releases| - 1;
      var init := FloorErrorsExactly(releases[..n], cutover);
      ReleaseErrorIs(releases[n], cutover);
      TooLowNext(releases, cutover, FloorErrors(releases[..n], cutover), ReleaseErrors(releases[n], cutover), init);
      picked := init + if ReleaseErrors(releases[n], cutover) == [] then [] else [n];
    }
  }

  lemma ReportParts(items: seq<Item>)
    ensures FeedErrors(items) == (if items == [] then [NoItems] else VersionErrors(items))
                                 + FloorErrors(Releases(items), EffectiveCutover(Releases(items)))
  {
    if items == [] {
      assert [NoItems] + VersionErrors(items) == [NoItems];
    } else {
      assert [] + VersionErrors(items) == VersionErrors(items);
    }
  }

  /** The whole report: one error for an empty feed, else those of the entries and then those of the releases. */
  lemma ReportExactly(items: seq<Item>)
    returns (first: seq<Error>, second: seq<Error>, unbuilt: seq<nat>, tooLow: seq<nat>)
    ensures FeedErrors(items) == (if items == [] then [NoItems] else first) + second
    ensures ReportsUnbuilt(items, first, unbuilt)
    ensures ReportsTooLow(Releases(items), EffectiveCutover(Releases(items)), second, tooLow)
  {
    first, second := VersionErrors(items), FloorErrors(Releases(items), EffectiveCutover(Releases(items)));
    unbuilt := VersionErrorsExactly(items);
    tooLow := FloorErrorsExactly(Releases(items), EffectiveCutover(Releases(items)));
    ReportParts(items);
  }
}
