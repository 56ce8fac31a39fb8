/** When the next season starts: rule-based opening days per league for the
    off-season, and the choice between the schedule and those rules.
    Dates are day numbers and timestamps of `Calendar`; `new Date(y, m, d)`
    is read in UTC. */
module SeasonStart {
  import opened Options
  import opened Strings
  import opened Sequences
  import opened Calendar
  import opened Domain

  /** Moving by whole weeks keeps the weekday. */
  lemma {:induction false} WeekdayAddWeeks(d: int, k: nat)
    ensures Weekday(d + 7 * k) == Weekday(d)
  {
    if k > 0 {
      WeekdayAddWeeks(d, k - 1);
      assert d + 7 * k == (d + 7 * (k - 1)) + 7;
    }
  }

  /** Going back `j` days from `d` moves the weekday back by `j`, modulo 7. */
  lemma WeekdayBack(d: int, j: int)
    requires 0 <= j < 7
    ensures Weekday(d - j) == (Weekday(d) - j + 7) % 7
  {
    var q := (d + 4) / 7;
    assert d + 4 == 7 * q + Weekday(d);
    if Weekday(d) >= j {
      assert d - j + 4 == 7 * q + (Weekday(d) - j);
    } else {
      assert d - j + 4 == 7 * (q - 1) + (Weekday(d) - j + 7);
    }
  }

  /** Two days less than a week apart with the same weekday are the same day. */
  lemma WeekdayWithinWeek(a: int, b: int)
    requires a <= b < a + 7 && Weekday(a) == Weekday(b)
    ensures a == b
  {
    WeekdayBack(b, b - a);
  }

  /** The first day of month `m` (0-based) of year `y`. */
  function FirstOfMonth(y: int, m: int): int
    requires 0 <= m < 12
  {
    DayNumber(y, m, 1)
  }

  /** `new Date(year, month + 1, 1)`, month 12 rolling into January of the
      next year. */
  function FirstOfNextMonth(y: int, m: int): (r: int)
    requires 0 <= m < 12
    ensures r == FirstOfMonth(y, m) + DaysInMonth(y, m)
  {
    MonthsTileYear(y, m);
    if m == 11 then DayNumber(y + 1, 0, 1) else DayNumber(y, m + 1, 1)
  }

  /** `nthWeekdayOfMonth`: the first day of the month if it falls on `wd`,
      else the next such day, then `n - 1` weeks on. The result falls on
      `wd` and is the n-th such day counted from the first of the month:
      exactly `n - 1` weeks' worth of days of that weekday come before it. */
  function NthWeekdayOfMonth(y: int, m: int, wd: int, n: int): (r: int)
    requires 0 <= m < 12 && 0 <= wd < 7 && 1 <= n
    ensures Weekday(r) == wd
    ensures FirstOfMonth(y, m) + (n - 1) * 7 <= r < FirstOfMonth(y, m) + n * 7
  {
    var first := FirstOfMonth(y, m);
    var firstMatch := if Weekday(first) == wd then first else NextWeekday(first, wd);
    WeekdayAddWeeks(firstMatch, n - 1);
    firstMatch + (n - 1) * 7
  }

  /** Up to the fourth, an n-th weekday always lies inside its month. */
  lemma NthWeekdayInMonth(y: int, m: int, wd: int, n: int)
    requires 0 <= m < 12 && 0 <= wd < 7 && 1 <= n <= 4
    ensures FirstOfMonth(y, m) <= NthWeekdayOfMonth(y, m, wd, n) < FirstOfNextMonth(y, m)
  {
  }

  /** The last day of month `m` falling on `wd`. */
  function LastWeekday(y: int, m: int, wd: int): (r: int)
    requires 0 <= m < 12 && 0 <= wd < 7
    ensures Weekday(r) == wd
    ensures FirstOfMonth(y, m) <= r < FirstOfNextMonth(y, m) <= r + 7
  {
    var last := FirstOfNextMonth(y, m) - 1;
    var j := (Weekday(last) - wd + 7) % 7;
    BackToWeekday(last, wd);
    last - j
  }

  /** Walking back `(getDay() - wd + 7) % 7` days lands on weekday `wd`. */
  lemma BackToWeekday(d: int, wd: int)
    requires 0 <= wd < 7
    ensures 0 <= (Weekday(d) - wd + 7) % 7 < 7
    ensures Weekday(d - (Weekday(d) - wd + 7) % 7) == wd
  {
    var j := (Weekday(d) - wd + 7) % 7;
    if Weekday(d) >= wd {
      assert j == Weekday(d) - wd;
    } else {
      assert j == Weekday(d) - wd + 7;
    }
    WeekdayBack(d, j);
  }

  /** `lastWeekdayOfMonth`: start from the last day of the month and walk
      back one day at a time until the weekday matches. */
  method LastWeekdayOfMonth(y: int, m: int, wd: int) returns (d: int)
    requires 0 <= m < 12 && 0 <= wd < 7
    ensures d == LastWeekday(y, m, wd)
  {
    var last := FirstOfNextMonth(y, m) - 1;
    ghost var target := LastWeekday(y, m, wd);
    d := last;
    while Weekday(d) != wd
      invariant target <= d <= last
      decreases d - target
    {
      d := d - 1;
    }
    WeekdayWithinWeek(target, d);
  }

  /** The step of the MLB rule's next-Thursday helper,
      `(4 - d.getDay() + 7) % 7 || 7`: it reaches the same day as date-fns'
      `nextThursday`. (The walk-back in `LastWeekdayOfMonth` never calls it.) */
  function NextThursdayStep(weekday: int): (r: int)
    requires 0 <= weekday < 7
  {
    var diff := (THURSDAY - weekday + 7) % 7;
    if diff == 0 then 7 else diff
  }

  lemma NextThursdayStepAgrees(day: int)
    ensures day + NextThursdayStep(Weekday(day)) == NextWeekday(day, THURSDAY)
  {
    var r := day + NextThursdayStep(Weekday(day));
    assert Weekday(r) == THURSDAY;
    assert day < r <= day + 7;
  }

  /** Labor Day: the first Monday of September. */
  function LaborDay(y: int): (r: int)
    ensures Weekday(r) == MONDAY
    ensures FirstOfMonth(y, 8) <= r < FirstOfMonth(y, 8) + 7
  {
    var first := FirstOfMonth(y, 8);
    if Weekday(first) == MONDAY then first else NextWeekday(first, MONDAY)
  }

  /** An opening-day rule instance: the day and the UTC time of day. */
  datatype Opening = Opening(day: int, hour: int, minute: int)

  /** The rule of each league (named in capitals) for `year`. */
  function SeasonRule(L: string, year: int): Option<Opening> {
    if L == "NFL" then Some(Opening(LaborDay(year) + 3, 24, 15))
    else if L == "MLB" then Some(Opening(LastWeekday(year, 2, THURSDAY), 17, 0))
    else if L == "NBA" then Some(Opening(NthWeekdayOfMonth(year, 9, TUESDAY, 4), 23, 30))
    else if L == "NHL" then Some(Opening(NthWeekdayOfMonth(year, 9, TUESDAY, 1), 23, 0))
    else if L == "WNBA" then Some(Opening(NthWeekdayOfMonth(year, 4, FRIDAY, 3), 23, 30))
    else if L == "MLS" then Some(Opening(LastWeekday(year, 1, SATURDAY), 18, 0))
    else if L == "CPL" then Some(Opening(NthWeekdayOfMonth(year, 3, SATURDAY, 2), 19, 0))
    else None
  }

  /** `calculateSeasonStartDate`: the rule-based opening of `year` as a
      timestamp (`setUTCHours` on the rule's day); January 1 of the
      following year for a league without a rule. */
  function CalculateSeasonStartDate(league: string, year: int): int {
    var rule := SeasonRule(ToUpper(league), year);
    if rule.Some? then SetUTCHours(StartOfDay(rule.value.day), rule.value.hour, rule.value.minute, 0, 0)
    else YearStart(year + 1)
  }

  /** The rules spelled out: each league opens on the stated weekday of the
      stated month, at the stated UTC time (the NFL's 24:15 is 00:15 on the
      Friday after the Thursday following Labor Day). */
  lemma SeasonRules(L: string, year: int)
    ensures var r := SeasonRule(L, year);
      && (r.Some? <==> L in {"NFL", "MLB", "NBA", "NHL", "WNBA", "MLS", "CPL"})
      && (L == "NFL" ==> Weekday(r.value.day) == THURSDAY && Weekday(r.value.day - 3) == MONDAY
                         && FirstOfMonth(year, 8) <= r.value.day - 3 < FirstOfMonth(year, 8) + 7
                         && r.value.hour == 24 && r.value.minute == 15)
      && (L == "MLB" ==> Weekday(r.value.day) == THURSDAY
                         && FirstOfMonth(year, 2) <= r.value.day < FirstOfNextMonth(year, 2) <= r.value.day + 7
                         && r.value.hour == 17 && r.value.minute == 0)
      && (L == "NBA" ==> Weekday(r.value.day) == TUESDAY
                         && FirstOfMonth(year, 9) + 21 <= r.value.day < FirstOfMonth(year, 9) + 28
                         && r.value.hour == 23 && r.value.minute == 30)
      && (L == "NHL" ==> Weekday(r.value.day) == TUESDAY
                         && FirstOfMonth(year, 9) <= r.value.day < FirstOfMonth(year, 9) + 7
                         && r.value.hour == 23 && r.value.minute == 0)
      && (L == "WNBA" ==> Weekday(r.value.day) == FRIDAY
                          && FirstOfMonth(year, 4) + 14 <= r.value.day < FirstOfMonth(year, 4) + 21
                          && r.value.hour == 23 && r.value.minute == 30)
      && (L == "MLS" ==> Weekday(r.value.day) == SATURDAY
                         && FirstOfMonth(year, 1) <= r.value.day < FirstOfNextMonth(year, 1) <= r.value.day + 7
                         && r.value.hour == 18 && r.value.minute == 0)
      && (L == "CPL" ==> Weekday(r.value.day) == SATURDAY
                         && FirstOfMonth(year, 3) + 7 <= r.value.day < FirstOfMonth(year, 3) + 14
                         && r.value.hour == 19 && r.value.minute == 0)
  {
    if L == "NFL" {
      var ld := LaborDay(year);
      WeekdayBack(ld + 3, 3);
    }
  }

  /** Every rule day lies between February 1 and October 31 of its year, at
      most 24:15 into the day. */
  lemma RuleWithinYear(L: string, year: int)
    requires SeasonRule(L, year).Some?
    ensures var r := SeasonRule(L, year).value;
      FirstOfMonth(year, 1) <= r.day <= DayNumber(year, 9, 31) && 0 <= r.hour <= 24 && 0 <= r.minute < 60
  {
    SeasonRules(L, year);
    MonthsTileYear(year, 0);
    MonthsTileYear(year, 1);
    MonthsTileYear(year, 2);
    MonthsTileYear(year, 3);
    MonthsTileYear(year, 4);
    MonthsTileYear(year, 8);
  }

  /** `setUTCHours` on a midnight adds the time of day to it. */
  lemma SetHoursOnMidnight(day: int, h: int, mi: int)
    ensures SetUTCHours(StartOfDay(day), h, mi, 0, 0) == StartOfDay(day) + h * MS_PER_HOUR + mi * MS_PER_MINUTE
  {
    DayOfStart(day);
  }

  /** Every rule-based opening of `year` falls inside `year`; the fallback
      is the first instant of the next one. */
  lemma SeasonStartInYear(league: string, year: int)
    ensures YearStart(year) <= CalculateSeasonStartDate(league, year) <= YearStart(year + 1)
    ensures SeasonRule(ToUpper(league), year).None? ==> CalculateSeasonStartDate(league, year) == YearStart(year + 1)
  {
    var rule := SeasonRule(ToUpper(league), year);
    if rule.Some? {
      var r := rule.value;
      RuleWithinYear(ToUpper(league), year);
      YearLength(year);
      var lo, hi := DaysBeforeYear(year), DaysBeforeYear(year + 1);
      assert r.day <= lo + 304;
      OpeningInYear(r.day, r.hour, r.minute, lo, hi);
    }
  }

  lemma OpeningInYear(day: int, h: int, mi: int, lo: int, hi: int)
    requires lo <= day && day + 2 <= hi && 0 <= h <= 24 && 0 <= mi < 60
    ensures StartOfDay(lo) <= SetUTCHours(StartOfDay(day), h, mi, 0, 0) <= StartOfDay(hi)
  {
    SetHoursOnMidnight(day, h, mi);
  }

  /** The schedule-based answer: `{ date, isMidSeason }`. */
  datatype SeasonStartResult = SeasonStartResult(date: int, isMidSeason: bool)

  predicate PlayedBefore(g: Game, now: int) {
    g.time.Some? && g.time.value.ms < now
  }

  predicate StartsAfter(g: Game, now: int) {
    g.time.Some? && g.time.value.ms > now
  }

  function FutureGames(games: seq<Game>, now: int): (r: seq<Game>)
    ensures forall g :: g in r <==> g in games && StartsAfter(g, now)
  {
    Filter(games, (g: Game) => StartsAfter(g, now))
  }

  /** The order of the schedule sort: by start time, untimed games first. */
  function TimeNoLater(a: Game, b: Game): bool {
    (if a.time.Some? then a.time.value.ms else 0) <= (if b.time.Some? then b.time.value.ms else 0)
  }

  lemma TimeNoLaterIsPreorder()
    ensures TotalPreorder(TimeNoLater)
  {
  }

  /** The start of the first of the future games: the head of the list
      sorted by time. It is later than `now`, is the time of one of them and
      is no later than any of them. */
  function EarliestFutureStart(games: seq<Game>, now: int): (t: int)
    requires FutureGames(games, now) != []
    ensures t > now
    ensures exists g :: g in games && StartsAfter(g, now) && g.time.value.ms == t
    ensures forall g :: g in games && StartsAfter(g, now) ==> t <= g.time.value.ms
  {
    var future := FutureGames(games, now);
    var sorted := SortWith(future, TimeNoLater);
    TimeNoLaterIsPreorder();
    SortSorted(future, TimeNoLater);
    assert sorted[0] in multiset(future) by { assert sorted[0] in multiset(sorted); }
    assert sorted[0] in future;
    assert forall g :: g in future ==> g in sorted by {
      forall g | g in future ensures g in sorted {
        assert g in multiset(future);
      }
    }
    assert forall g :: g in sorted ==> TimeNoLater(sorted[0], g) by {
      forall g | g in sorted ensures TimeNoLater(sorted[0], g) {
        var i :| 0 <= i < |sorted| && sorted[i] == g;
        if i > 0 {
          assert Sorted(sorted, TimeNoLater);
        }
      }
    }
    sorted[0].time.value.ms
  }

  /** `getSeasonStartDate`. `games` is the league's schedule, `None` when it
      cannot be loaded; `currentYear` is the year `now` falls in. With
      games both behind and ahead the season is under way and the answer
      is next year's rule date; else the earliest game ahead; else this
      year's rule date, or next year's once this year's has passed. */
  function GetSeasonStartDate(league: string, games: Option<seq<Game>>, now: int, currentYear: int)
    : SeasonStartResult
    requires InYear(now, currentYear)
  {
    var hasPast := games.Some? && exists g :: g in games.value && PlayedBefore(g, now);
    var hasFuture := games.Some? && FutureGames(games.value, now) != [];
    if hasPast && hasFuture then
      SeasonStartResult(CalculateSeasonStartDate(league, currentYear + 1), true)
    else if hasFuture then
      SeasonStartResult(EarliestFutureStart(games.value, now), false)
    else
      var date := CalculateSeasonStartDate(league, currentYear);
      if date > now then SeasonStartResult(date, false)
      else SeasonStartResult(CalculateSeasonStartDate(league, currentYear + 1), false)
  }

  /** Whatever the schedule holds, the start date given is still ahead, and
      the season counts as under way exactly when the schedule has games
      on both sides of `now`. */
  lemma SeasonStartIsAhead(league: string, games: Option<seq<Game>>, now: int, currentYear: int)
    requires InYear(now, currentYear)
    ensures GetSeasonStartDate(league, games, now, currentYear).date > now
    ensures GetSeasonStartDate(league, games, now, currentYear).isMidSeason <==>
      games.Some? && (exists g :: g in games.value && PlayedBefore(g, now))
                  && (exists g :: g in games.value && StartsAfter(g, now))
  {
    SeasonStartInYear(league, currentYear + 1);
    if games.Some? && (exists g :: g in games.value && StartsAfter(g, now)) {
      var g :| g in games.value && StartsAfter(g, now);
      assert g in FutureGames(games.value, now);
    }
    if games.Some? && FutureGames(games.value, now) != [] {
      assert FutureGames(games.value, now)[0] in FutureGames(games.value, now);
    }
  }

  /** Kickoff of the NFL season of `year`: 20:15 EDT on the Thursday after
      Labor Day, written as 24:15 UTC. */
  function NflKickoff(year: int): int {
    SetUTCHours(StartOfDay(LaborDay(year) + 3), 24, 15, 0, 0)
  }

  /** `getNflSeasonStartDate` as written: the roll-over to next year is
      decided on the Thursday's midnight, before the kickoff time is set. */
  function GetNflSeasonStartDateAsWritten(now: int, currentYear: int): int {
    var thursday := StartOfDay(LaborDay(currentYear) + 3);
    if thursday > now then NflKickoff(currentYear) else NflKickoff(currentYear + 1)
  }

  /** On the opening Thursday itself, between midnight and kickoff, the
      function as written already answers with next year's kickoff although
      this year's is still ahead. 2025: Labor Day is Monday, September 1;
      at 01:00 UTC on Thursday, September 4, kickoff is 23 hours and a
      quarter away. */
  lemma NflRollsOverEarly()
    ensures var now := StartOfDay(DayNumber(2025, 8, 4)) + MS_PER_HOUR;
      && NflKickoff(2025) > now
      && GetNflSeasonStartDateAsWritten(now, 2025) == NflKickoff(2026)
      && NflKickoff(2026) != NflKickoff(2025)
  {
    LaborDay2025();
    var now := StartOfDay(DayNumber(2025, 8, 4)) + MS_PER_HOUR;
    assert now == 20335 * MS_PER_DAY + MS_PER_HOUR;
    KickoffOf(20335);
    assert NflKickoff(2025) == 20335 * MS_PER_DAY + 24 * MS_PER_HOUR + 15 * MS_PER_MINUTE;
    SeasonStartInYear("NFL", 2026);
    assert NflKickoff(2026) >= YearStart(2026);
    assert DaysBeforeYear(2026) == 20454;
  }

  /** Labor Day 2025 is Monday, September 1: day 20332. */
  lemma LaborDay2025()
    ensures DayNumber(2025, 8, 1) == 20332 && DayNumber(2025, 8, 4) == 20335
    ensures LaborDay(2025) == 20332
  {
    assert DaysBeforeYear(2025) == 20089;
    assert Weekday(20332) == MONDAY;
  }

  /** The kickoff set on the Thursday `day`. */
  lemma KickoffOf(day: int)
    ensures SetUTCHours(StartOfDay(day), 24, 15, 0, 0) == day * MS_PER_DAY + 24 * MS_PER_HOUR + 15 * MS_PER_MINUTE
  {
    DayOfStart(day);
  }

  /** `getNflSeasonStartDate` with the roll-over decided on the kickoff
      itself, as `getSeasonStartDate` does for the NFL rule. */
  function GetNflSeasonStartDate(now: int, currentYear: int): int {
    if NflKickoff(currentYear) > now then NflKickoff(currentYear) else NflKickoff(currentYear + 1)
  }

  /** The corrected date is the next kickoff: it is ahead of `now`, and it
      is this year's whenever this year's is still ahead. It agrees with
      the league-generic rule path. */
  lemma NflSeasonStartIsNextKickoff(now: int, currentYear: int)
    requires InYear(now, currentYear)
    ensures GetNflSeasonStartDate(now, currentYear) > now
    ensures NflKickoff(currentYear) > now ==> GetNflSeasonStartDate(now, currentYear) == NflKickoff(currentYear)
    ensures GetNflSeasonStartDate(now, currentYear) == GetSeasonStartDate("NFL", None, now, currentYear).date
  {
    NflRuleIsKickoff(currentYear);
    NflRuleIsKickoff(currentYear + 1);
    SeasonStartInYear("NFL", currentYear + 1);
  }

  /** The generic rule path computes the NFL kickoff. */
  lemma NflRuleIsKickoff(year: int)
    ensures CalculateSeasonStartDate("NFL", year) == NflKickoff(year)
  {
    assert ToUpper("NFL") == "NFL";
    assert SeasonRule("NFL", year) == Some(Opening(LaborDay(year) + 3, 24, 15));
  }
}
