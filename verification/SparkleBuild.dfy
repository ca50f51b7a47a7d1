/**
 Sparkle build numbers of calendar versions such as `2026.3.12-beta.4`: the floors that are
 spelled out as digit strings, and the release feed they are checked against.
 */
module SparkleBuild {
  import opened Text
  import opened Decimals
  import opened Optional

  datatype Floors = Floors(dateKey: nat, legacyFloor: nat, laneFloor: nat, lane: nat)

  /** A version as written: the digits of year, month and day, and what follows them. */
  datatype Calver = Calver(year: string, month: string, day: string, suffix: string)

  // ----- the version pattern -----

  predicate IsLineTerminator(c: char) {
    c == '\n' || c == '\r' || c == '\U{2028}' || c == '\U{2029}'
  }

  /** Nothing, or a dot or dash and more characters on the same line. */
  predicate IsSuffix(s: string) {
    s == "" || ((s[0] == '.' || s[0] == '-') && forall i :: 0 <= i < |s| ==> !IsLineTerminator(s[i]))
  }

  predicate IsCalver(v: Calver) {
    && AllDigits(v.year) && |v.year| == 4
    && AllDigits(v.month) && 1 <= |v.month| <= 2
    && AllDigits(v.day) && 1 <= |v.day| <= 2
    && IsSuffix(v.suffix)
  }

  function Written(v: Calver): string {
    v.year + "." + v.month + "." + v.day + v.suffix
  }

  /** How many digits, at most two, stand at `i`. */
  function DigitRun(s: string, i: nat): (n: nat)
    requires i <= |s|
    ensures i + n <= |s| && n <= 2
    ensures forall k :: i <= k < i + n ==> IsDigit(s[k])
  {
    if i < |s| && IsDigit(s[i]) then if i + 1 < |s| && IsDigit(s[i + 1]) then 2 else 1 else 0
  }

  /** Four digits, a dot, one or two digits, a dot, one or two digits, a suffix. */
  function ParseCalver(s: string): (r: Option<Calver>)
    ensures r.Some? ==> IsCalver(r.value)
  {
    if |s| < 5 || !AllDigits(s[..4]) || s[4] != '.' then None
    else
      var m := DigitRun(s, 5);
      if m == 0 || 5 + m >= |s| || s[5 + m] != '.' then None
      else
        var d := DigitRun(s, 6 + m);
        if d == 0 || !IsSuffix(s[6 + m + d..]) then None
        else Some(Calver(s[..4], s[5..5 + m], s[6 + m..6 + m + d], s[6 + m + d..]))
  }

  /** The pattern matches exactly the written versions, in one way only. */
  lemma ParsesExactlyTheWritten(s: string, v: Calver)
    ensures ParseCalver(s) == Some(v) <==> IsCalver(v) && Written(v) == s
  {
    if IsCalver(v) && Written(v) == s {
      ParseWritten(v);
    }
    if ParseCalver(s) == Some(v) {
      ParsedIsWritten(s);
    }
  }

  predicate AreDigits(s: string, least: nat, most: nat) {
    least <= |s| <= most && forall i :: 0 <= i < |s| ==> '0' <= s[i] <= '9'
  }

  /** Nothing, or a dot or a dash and whatever else stands on the line. */
  predicate IsRestOfLine(s: string) {
    s != "" ==> (s[0] == '.' || s[0] == '-')
                && '\n' !in s && '\r' !in s && '\U{2028}' !in s && '\U{2029}' !in s
  }

  /** Four digits, one or two, one or two, with dots between, and perhaps a suffix. */
  ghost predicate MatchesPattern(s: string, year: string, month: string, day: string, suffix: string) {
    && s == year + "." + month + "." + day + suffix
    && AreDigits(year, 4, 4) && AreDigits(month, 1, 2) && AreDigits(day, 1, 2) && IsRestOfLine(suffix)
  }

  /** The parser takes a string apart exactly as the pattern does. */
  lemma ParsesByPattern(s: string, year: string, month: string, day: string, suffix: string)
    ensures ParseCalver(s) == Some(Calver(year, month, day, suffix)) <==> MatchesPattern(s, year, month, day, suffix)
  {
    var v := Calver(year, month, day, suffix);
    ParsesExactlyTheWritten(s, v);
    assert IsSuffix(suffix) <==> IsRestOfLine(suffix) by {
      assert forall c :: c in suffix <==> exists i :: 0 <= i < |suffix| && suffix[i] == c;
    }
  }

  lemma ParsedIsWritten(s: string)
    requires ParseCalver(s).Some?
    ensures Written(ParseCalver(s).value) == s
  {
    var v := ParseCalver(s).value;
    var m, d := |v.month|, |v.day|;
    assert v.year + "." == s[..5];
    assert s[..5] + v.month == s[..5 + m];
    assert s[..5 + m] + "." == s[..6 + m];
    assert s[..6 + m] + v.day == s[..6 + m + d];
    assert s[..6 + m + d] + v.suffix == s;
  }

  lemma ParseWritten(v: Calver)
    requires IsCalver(v)
    ensures ParseCalver(Written(v)) == Some(v)
  {
    var s, m, d := Written(v), |v.month|, |v.day|;
    assert s[..4] == v.year && s[4] == '.';
    assert s[5..5 + m] == v.month && s[5 + m] == '.';
    assert forall k :: 0 <= k < m ==> s[5 + k] == v.month[k];
    assert DigitRun(s, 5) == m;
    assert s[6 + m..6 + m + d] == v.day && s[6 + m + d..] == v.suffix;
    assert forall k :: 0 <= k < d ==> s[6 + m + k] == v.day[k];
    assert v.suffix != "" ==> s[6 + m + d] == v.suffix[0];
    assert DigitRun(s, 6 + m) == d;
  }

  // ----- floors -----

  /** The longest run of digits that ends the string. */
  function EndDigits(s: string): (r: string)
    ensures AllDigits(r)
    ensures |r| <= |s| && r == s[|s| - |r|..]
    ensures |r| < |s| ==> !IsDigit(s[|s| - |r| - 1])
  {
    if s != "" && IsDigit(s[|s| - 1]) then EndDigits(s[..|s| - 1]) + [s[|s| - 1]] else ""
  }

  /** Release lane: 90 for a final release, up to 89 for a numbered one, 1 for a named one. */
  function Lane(suffix: string): (lane: nat)
    ensures lane <= 90 && (lane == 90 <==> suffix == "")
  {
    if suffix == "" then 90
    else if EndDigits(suffix) == "" then 1
    else if DigitsValue(EndDigits(suffix)) < 89 then DigitsValue(EndDigits(suffix)) else 89
  }

  lemma {:induction false} EndDigitsAre(head: string, digits: string)
    requires AllDigits(digits) && (head == "" || !IsDigit(head[|head| - 1]))
    ensures EndDigits(head + digits) == digits
    decreases |digits|
  {
    if digits == "" {
      assert head + digits == head;
    } else {
      var init := digits[..|digits| - 1];
      EndDigitsAre(head, init);
      assert (head + digits)[..|head + digits| - 1] == head + init;
    }
  }

  /** The lane of a suffix is the number it ends in, but at most 89, or 1 if it ends in no digit. */
  lemma LaneOfSuffix(head: string, digits: string)
    requires head != "" && !IsDigit(head[|head| - 1]) && AllDigits(digits)
    ensures Lane(head + digits) ==
            if digits == "" then 1 else if DigitsValue(digits) <= 89 then DigitsValue(digits) else 89
  {
    EndDigitsAre(head, digits);
  }

  /** Every suffix is of that form. */
  lemma SuffixParts(suffix: string) returns (head: string, digits: string)
    requires IsSuffix(suffix) && suffix != ""
    ensures suffix == head + digits && AllDigits(digits) && head != "" && !IsDigit(head[|head| - 1])
  {
    digits := EndDigits(suffix);
    head := suffix[..|suffix| - |digits|];
    assert !IsDigit(suffix[0]);
  }

  function Pad2(n: nat): (s: string)
    ensures AllDigits(s)
  {
    if |Digits(n)| < 2 then "0" + Digits(n) else Digits(n)
  }

  /** Digits written one after the other are digits. */
  function Glue(a: string, b: string): (s: string)
    requires AllDigits(a) && AllDigits(b)
    ensures AllDigits(s)
  {
    a + b
  }

  predicate HasDate(v: Calver)
    requires IsCalver(v)
  {
    1 <= DigitsValue(v.month) <= 12 && 1 <= DigitsValue(v.day) <= 31
  }

  function DateString(v: Calver): (s: string)
    requires IsCalver(v)
    ensures AllDigits(s)
  {
    Glue(Glue(Digits(DigitsValue(v.year)), Pad2(DigitsValue(v.month))), Pad2(DigitsValue(v.day)))
  }

  function FloorsOf(v: Calver): Floors
    requires IsCalver(v)
  {
    var dateKey := DigitsValue(DateString(v));
    var lane := Lane(v.suffix);
    Floors(dateKey, DigitsValue(Glue(Digits(dateKey), "0")), DigitsValue(Glue(Digits(dateKey), Pad2(lane))), lane)
  }

  function FloorsFromShortVersion(shortVersion: string): Option<Floors> {
    var parsed := ParseCalver(Trim(shortVersion));
    if parsed.None? || !HasDate(parsed.value) then None else Some(FloorsOf(parsed.value))
  }

  function CanonicalBuild(shortVersion: string): Option<nat> {
    var floors := FloorsFromShortVersion(shortVersion);
    if floors.None? then None else Some(floors.value.laneFloor)
  }

  function Power10(k: nat): nat {
    if k == 0 then 1 else 10 * Power10(k - 1)
  }

  lemma AppendDigit(s: string, c: char)
    requires AllDigits(s) && IsDigit(c)
    ensures AllDigits(s + [c]) && DigitsValue(s + [c]) == 10 * DigitsValue(s) + (c as int - '0' as int)
  {
    assert (s + [c])[..|s|] == s;
  }

  lemma {:induction false} ValueOfConcat(a: string, b: string)
    requires AllDigits(a) && AllDigits(b)
    ensures AllDigits(a + b) && DigitsValue(a + b) == DigitsValue(a) * Power10(|b|) + DigitsValue(b)
  {
    if b == "" {
      assert a + b == a;
    } else {
      var head, c := b[..|b| - 1], b[|b| - 1];
      ValueOfConcat(a, head);
      AppendDigit(a + head, c);
      AppendDigit(head, c);
      assert a + b == a + head + [c] && b == head + [c];
      TenTimes(DigitsValue(a), Power10(|head|));
    }
  }

  lemma TenTimes(x: nat, y: nat)
    ensures x * (10 * y) == 10 * (x * y)
  {
  }

  lemma Pad2Value(n: nat)
    requires n < 100
    ensures |Pad2(n)| == 2 && DigitsValue(Pad2(n)) == n
  {
    DigitsRoundTrip(n);
    if n < 10 {
      assert Pad2(n)[..1] == "0";
      assert DigitsValue("0") == 0;
    } else {
      assert Digits(n) == Digits(n / 10) + ['0' + (n % 10) as char];
    }
  }

  lemma AppendTwoDigits(prefix: string, n: nat)
    requires AllDigits(prefix) && n < 100
    ensures AllDigits(prefix + Pad2(n)) && DigitsValue(prefix + Pad2(n)) == DigitsValue(prefix) * 100 + n
  {
    Pad2Value(n);
    ValueOfConcat(prefix, Pad2(n));
    assert Power10(2) == 10 * Power10(1);
  }

  /** The date as one number, eight digits long from the year 1000 on. */
  function DateNumber(v: Calver): nat
    requires IsCalver(v)
  {
    DigitsValue(v.year) * 10000 + DigitsValue(v.month) * 100 + DigitsValue(v.day)
  }

  lemma DateStringValue(v: Calver)
    requires IsCalver(v) && HasDate(v)
    ensures DigitsValue(DateString(v)) == DateNumber(v)
  {
    var year, month, day := DigitsValue(v.year), DigitsValue(v.month), DigitsValue(v.day);
    DigitsRoundTrip(year);
    AppendTwoDigits(Digits(year), month);
    AppendTwoDigits(Digits(year) + Pad2(month), day);
  }

  lemma GluedFloors(date: nat, lane: nat)
    requires lane < 100
    ensures DigitsValue(Glue(Digits(date), "0")) == date * 10
    ensures DigitsValue(Glue(Digits(date), Pad2(lane))) == date * 100 + lane
  {
    DigitsRoundTrip(date);
    AppendTwoDigits(Digits(date), lane);
    ValueOfConcat(Digits(date), "0");
    assert DigitsValue("0") == 0 && Power10(1) == 10;
  }

  /** The floors glued together from strings are the numbers they are meant to be. */
  lemma FloorsAreArithmetic(v: Calver)
    requires IsCalver(v) && HasDate(v)
    ensures var date, lane := DateNumber(v), Lane(v.suffix);
            FloorsOf(v) == Floors(date, date * 10, date * 100 + lane, lane)
  {
    DateStringValue(v);
    GluedFloors(DateNumber(v), Lane(v.suffix));
  }

  lemma FloorsAreRead(shortVersion: string, v: Calver)
    requires ParseCalver(Trim(shortVersion)) == Some(v) && HasDate(v)
    ensures var date, lane := DateNumber(v), Lane(v.suffix);
            FloorsFromShortVersion(shortVersion) == Some(Floors(date, date * 10, date * 100 + lane, lane))
  {
    FloorsAreArithmetic(v);
  }

  /** What every version that has floors looks like. */
  predicate ProperFloors(f: Floors) {
    f.legacyFloor == f.dateKey * 10 && f.laneFloor == f.dateKey * 100 + f.lane && f.lane <= 90
  }

  lemma FloorsAreProper(shortVersion: string)
    ensures var f := FloorsFromShortVersion(shortVersion);
            f.Some? ==> ProperFloors(f.value)
  {
    var parsed := ParseCalver(Trim(shortVersion));
    if parsed.Some? && HasDate(parsed.value) {
      FloorsAreArithmetic(parsed.value);
    }
  }

  /** Later date first, then higher lane: the order of the releases themselves. */
  predicate ReleasedBefore(v: Calver, w: Calver)
    requires IsCalver(v) && IsCalver(w)
  {
    var (year, month, day) := (DigitsValue(v.year), DigitsValue(v.month), DigitsValue(v.day));
    var (year', month', day') := (DigitsValue(w.year), DigitsValue(w.month), DigitsValue(w.day));
    if year != year' then year < year'
    else if month != month' then month < month'
    else if day != day' then day < day'
    else Lane(v.suffix) < Lane(w.suffix)
  }

  lemma NumbersFollowReleases(v: Calver, w: Calver)
    requires IsCalver(v) && IsCalver(w) && HasDate(v) && HasDate(w)
    ensures DateNumber(v) * 100 + Lane(v.suffix) < DateNumber(w) * 100 + Lane(w.suffix) <==> ReleasedBefore(v, w)
  {
  }

  /** Canonical builds order versions exactly as date and lane do. */
  lemma CanonicalBuildsFollowReleases(s: string, t: string, v: Calver, w: Calver)
    requires ParseCalver(Trim(s)) == Some(v) && HasDate(v)
    requires ParseCalver(Trim(t)) == Some(w) && HasDate(w)
    ensures CanonicalBuild(s).Some? && CanonicalBuild(t).Some?
    ensures CanonicalBuild(s).value < CanonicalBuild(t).value <==> ReleasedBefore(v, w)
  {
    FloorsAreRead(s, v);
    FloorsAreRead(t, w);
    NumbersFollowReleases(v, w);
  }

  /** The text of a calendar version with a possible month and day. */
  ghost predicate IsDated(s: string) {
    exists v :: IsCalver(v) && 1 <= DigitsValue(v.month) <= 12 && 1 <= DigitsValue(v.day) <= 31 && Written(v) == s
  }

  lemma DatedIsParsed(s: string)
    ensures IsDated(s) <==> ParseCalver(s).Some? && HasDate(ParseCalver(s).value)
  {
    if ParseCalver(s).Some? {
      ParsesExactlyTheWritten(s, ParseCalver(s).value);
    }
    forall v | IsCalver(v) && Written(v) == s
      ensures ParseCalver(s) == Some(v)
    {
      ParsesExactlyTheWritten(s, v);
    }
  }

  /** A version has floors exactly when, trimmed, it is a calendar version with a possible month and day. */
  lemma FloorsIffDated(shortVersion: string)
    ensures FloorsFromShortVersion(shortVersion).Some? <==> IsDated(Trim(shortVersion))
  {
    DatedIsParsed(Trim(shortVersion));
  }
}
