/** The countdown texts: the compact "in 1d 2h 3m" countdown of the game
    lists, the status line of the main countdown, and the small choices
    around it (logo path, opposing team). */
module CountdownText {
  import opened Options
  import opened Strings
  import opened Calendar
  import opened Domain

  /** How long a game is taken to last. */
  const GAME_LENGTH_MS: int := 3 * MS_PER_HOUR

  datatype Breakdown = Breakdown(days: int, hours: int, minutes: int)

  /** The split of a number of whole minutes into days, hours and minutes. */
  function Decompose(totalMinutes: nat): Breakdown {
    Breakdown(totalMinutes / (60 * 24), (totalMinutes % (60 * 24)) / 60, totalMinutes % 60)
  }

  /** The split is exact and each part is in range. */
  lemma DecomposeExact(totalMinutes: nat)
    ensures var b := Decompose(totalMinutes);
      && b.days * 1440 + b.hours * 60 + b.minutes == totalMinutes
      && 0 <= b.days && 0 <= b.hours < 24 && 0 <= b.minutes < 60
  {
    var q := totalMinutes / 1440;
    var r := totalMinutes % 1440;
    assert totalMinutes == q * 1440 + r;
    var h := r / 60;
    var m := r % 60;
    assert r == h * 60 + m;
    ModOfSixty(totalMinutes, q * 24 + h, m);
  }

  /** The remainder by 60 of `a * 60 + b` with `0 <= b < 60` is `b`. */
  lemma ModOfSixty(n: int, a: int, b: int)
    requires n == a * 60 + b && 0 <= b < 60
    ensures n % 60 == b
  {
  }

  /** The three-tier text: days, hours and minutes when there is at least
      a day; hours and minutes when there is at least an hour; otherwise
      minutes alone. */
  function TimeUntil(b: Breakdown): string
    requires 0 <= b.days && 0 <= b.hours && 0 <= b.minutes
  {
    if b.days > 0 then
      "in " + NatToString(b.days) + "d " + NatToString(b.hours) + "h " + NatToString(b.minutes) + "m"
    else if b.hours > 0 then
      "in " + NatToString(b.hours) + "h " + NatToString(b.minutes) + "m"
    else
      "in " + NatToString(b.minutes) + "m"
  }

  /** `updateCountdown` at `now` for a game starting at `gameTime`: before
      the start, the time left in whole minutes; after it, `startedLabel`
      for the first three hours and "Completed" after that. */
  function CountdownLabel(gameTime: int, now: int, startedLabel: string): string {
    var diff := gameTime - now;
    if diff <= 0 then
      (if -diff < GAME_LENGTH_MS then startedLabel else "Completed")
    else
      TimeUntil(Decompose(diff / MS_PER_MINUTE))
  }

  /** The standalone mini countdown. */
  function MiniCountdown(gameTime: int, now: int): string {
    CountdownLabel(gameTime, now, "Live!")
  }

  /** The countdown of the "You might like" list. */
  function YouMightLikeCountdown(gameTime: int, now: int): string {
    CountdownLabel(gameTime, now, "In progress")
  }

  /** Reads the amount of a countdown part such as "12h". */
  function UnitMinutes(part: string): Option<int> {
    if |part| < 2 || !(forall i :: 0 <= i < |part| - 1 ==> IsDigit(part[i])) then None
    else
      var n := ParseDigits(part[..|part| - 1]);
      var unit := part[|part| - 1];
      if unit == 'd' then Some(n * 1440)
      else if unit == 'h' then Some(n * 60)
      else if unit == 'm' then Some(n)
      else None
  }

  function SumUnits(parts: seq<string>): Option<int> {
    if parts == [] then Some(0)
    else
      var head := UnitMinutes(parts[0]);
      var rest := SumUnits(parts[1..]);
      if head.Some? && rest.Some? then Some(head.value + rest.value) else None
  }

  /** Reads a countdown text back into minutes. */
  function ParseTimeUntil(s: string): Option<int> {
    var parts := Split(s, ' ');
    if parts[0] == "in" then SumUnits(parts[1..]) else None
  }

  lemma UnitPart(n: nat, unit: char)
    requires unit == 'd' || unit == 'h' || unit == 'm'
    ensures ' ' !in NatToString(n) + [unit]
    ensures UnitMinutes(NatToString(n) + [unit]) == Some(if unit == 'd' then n * 1440 else if unit == 'h' then n * 60 else n)
  {
    var p := NatToString(n) + [unit];
    assert p[..|p| - 1] == NatToString(n);
    NatToStringRoundTrip(n);
    assert ' ' !in NatToString(n) by {
      forall i | 0 <= i < |NatToString(n)| ensures NatToString(n)[i] != ' ' {
        assert IsDigit(NatToString(n)[i]);
      }
    }
  }

  /** A text "in" followed by space-free units reads back as their sum. */
  lemma ParseJoined(units: seq<string>)
    requires forall i :: 0 <= i < |units| ==> ' ' !in units[i]
    ensures ParseTimeUntil(Join(["in"] + units, " ")) == SumUnits(units)
  {
    var parts := ["in"] + units;
    forall i | 0 <= i < |parts| ensures ' ' !in parts[i] {
      if i > 0 {
        assert parts[i] == units[i - 1];
      }
    }
    assert " " == [' '];
    SplitJoin(parts, ' ');
    assert parts[1..] == units;
  }

  /** Three and two units add up. */
  lemma SumThree(D: string, H: string, M: string)
    ensures SumUnits([D, H, M]) == if UnitMinutes(D).Some? && SumUnits([H, M]).Some?
      then Some(UnitMinutes(D).value + SumUnits([H, M]).value) else None
  {
    assert [D, H, M][1..] == [H, M];
  }

  lemma SumTwo(H: string, M: string)
    ensures SumUnits([H, M]) == if UnitMinutes(H).Some? && UnitMinutes(M).Some?
      then Some(UnitMinutes(H).value + UnitMinutes(M).value) else None
  {
    assert [H, M][1..] == [M];
    assert [M][1..] == [];
    assert SumUnits([M]) == if UnitMinutes(M).Some? then Some(UnitMinutes(M).value) else None;
  }

  lemma RegroupDays(x: string, y: string, z: string)
    ensures "in " + x + "d " + y + "h " + z + "m" == "in" + " " + (x + "d") + " " + (y + "h") + " " + (z + "m")
  {
  }

  lemma RegroupHours(y: string, z: string)
    ensures "in " + y + "h " + z + "m" == "in" + " " + (y + "h") + " " + (z + "m")
  {
  }

  lemma RegroupMinutes(z: string)
    ensures "in " + z + "m" == "in" + " " + (z + "m")
  {
  }

  lemma TierDays(b: Breakdown)
    requires 0 < b.days && 0 <= b.hours && 0 <= b.minutes
    ensures ParseTimeUntil(TimeUntil(b)) == Some(b.days * 1440 + b.hours * 60 + b.minutes)
  {
    var D, H, M := NatToString(b.days) + "d", NatToString(b.hours) + "h", NatToString(b.minutes) + "m";
    UnitPart(b.days, 'd');
    UnitPart(b.hours, 'h');
    UnitPart(b.minutes, 'm');
    SumTwo(H, M);
    SumThree(D, H, M);
    JoinFour("in", D, H, M, " ");
    RegroupDays(NatToString(b.days), NatToString(b.hours), NatToString(b.minutes));
    assert ["in"] + [D, H, M] == ["in", D, H, M];
    ParseJoined([D, H, M]);
  }

  lemma TierHours(b: Breakdown)
    requires 0 < b.hours && 0 <= b.minutes
    ensures ParseTimeUntil("in " + NatToString(b.hours) + "h " + NatToString(b.minutes) + "m") == Some(b.hours * 60 + b.minutes)
  {
    var H, M := NatToString(b.hours) + "h", NatToString(b.minutes) + "m";
    UnitPart(b.hours, 'h');
    UnitPart(b.minutes, 'm');
    SumTwo(H, M);
    JoinThree("in", H, M, " ");
    RegroupHours(NatToString(b.hours), NatToString(b.minutes));
    assert ["in"] + [H, M] == ["in", H, M];
    ParseJoined([H, M]);
  }

  lemma TierMinutes(minutes: nat)
    ensures ParseTimeUntil("in " + NatToString(minutes) + "m") == Some(minutes)
  {
    var M := NatToString(minutes) + "m";
    UnitPart(minutes, 'm');
    JoinTwo("in", M, " ");
    RegroupMinutes(NatToString(minutes));
    assert ["in"] + [M] == ["in", M];
    ParseJoined([M]);
  }

  /** The countdown text loses nothing but seconds: reading it back gives
      the whole minutes to the start. */
  lemma TimeUntilRoundTrip(totalMinutes: nat)
    ensures ParseTimeUntil(TimeUntil(Decompose(totalMinutes))) == Some(totalMinutes)
  {
    var b := Decompose(totalMinutes);
    DecomposeExact(totalMinutes);
    if b.days > 0 {
      TierDays(b);
    } else if b.hours > 0 {
      TierHours(b);
    } else {
      TierMinutes(b.minutes);
    }
  }

  /** Before the start the label is the countdown of the whole minutes
      left, "in 0m" in the last minute; after it, the started label for
      exactly the first three hours. */
  lemma CountdownLabelCases(gameTime: int, now: int, startedLabel: string)
    ensures gameTime > now ==>
      ParseTimeUntil(CountdownLabel(gameTime, now, startedLabel)) == Some((gameTime - now) / MS_PER_MINUTE)
    ensures now < gameTime < now + MS_PER_MINUTE ==> CountdownLabel(gameTime, now, startedLabel) == "in 0m"
    ensures gameTime <= now < gameTime + GAME_LENGTH_MS ==> CountdownLabel(gameTime, now, startedLabel) == startedLabel
    ensures gameTime + GAME_LENGTH_MS <= now ==> CountdownLabel(gameTime, now, startedLabel) == "Completed"
  {
    if gameTime > now {
      TimeUntilRoundTrip((gameTime - now) / MS_PER_MINUTE);
    }
  }

  /** One suggestion as listed: links to both teams, their names and the
      countdown. */
  datatype Suggestion = Suggestion(homeLink: string, homeName: string, awayLink: string, awayName: string, countdown: string)

  function TeamLink(league: string, team: Team): string {
    "/" + ToLower(league) + "/" + ToLower(team.abbreviation)
  }

  /** `YouMightLike`: nothing for an empty list, else one entry per game, in
      order. The list comes from the suggestion filter, which only keeps
      games with a time and both teams. */
  function YouMightLike(games: seq<Game>, league: string, now: int): (r: Option<seq<Suggestion>>)
    requires forall i :: 0 <= i < |games| ==> games[i].time.Some? && games[i].homeTeam.Some? && games[i].awayTeam.Some?
    ensures r.None? <==> games == []
    ensures r.Some? ==> |r.value| == |games| && forall i :: 0 <= i < |games| ==>
      && r.value[i].homeLink == TeamLink(league, games[i].homeTeam.value)
      && r.value[i].awayLink == TeamLink(league, games[i].awayTeam.value)
      && r.value[i].countdown == YouMightLikeCountdown(games[i].time.value.ms, now)
  {
    if |games| == 0 then None
    else Some(seq(|games|, i requires 0 <= i < |games| =>
      var g := games[i];
      Suggestion(TeamLink(league, g.homeTeam.value), g.homeTeam.value.fullName,
                 TeamLink(league, g.awayTeam.value), g.awayTeam.value.fullName,
                 YouMightLikeCountdown(g.time.value.ms, now))))
  }

  /** What follows "till" in the status line. */
  function CountdownSuffix(team: Option<Team>, isTeamPage: bool, LEAGUE: string): string {
    if isTeamPage && team.Some? then
      (if LEAGUE == "CPL" || LEAGUE == "MLS" then team.value.nickName + " play next"
       else "the " + team.value.nickName + " play next")
    else if LEAGUE == "NFL" then "kickoff"
    else if LEAGUE == "MLB" then "first pitch"
    else "tipoff"
  }

  /** `countdownString`. `countdownText` is what the external countdown
      library prints for the time left. */
  function CountdownString(game: Option<Game>, team: Option<Team>, isTeamPage: bool, LEAGUE: string,
                           now: int, countdownText: string): string {
    if game.None? then "No upcoming games"
    else if game.value.time.None? then "Game time TBD"
    else
      var t := game.value.time.value.ms;
      if t + GAME_LENGTH_MS < now then "Game completed"
      else if t <= now <= t + GAME_LENGTH_MS then "Game in progress!"
      else countdownText + " till " + CountdownSuffix(team, isTeamPage, LEAGUE)
  }

  /** The status line and the mini countdown agree on the phase of a game
      except at the very instant three hours after the start, which the
      status line still counts as in progress and the mini countdown
      already counts as completed. */
  lemma StatusAgreesWithMiniCountdown(game: Game, team: Option<Team>, isTeamPage: bool, LEAGUE: string,
                                      now: int, countdownText: string)
    requires game.time.Some?
    ensures var t := game.time.value.ms;
      var status := CountdownString(Some(game), team, isTeamPage, LEAGUE, now, countdownText);
      && (t > now ==> status == countdownText + " till " + CountdownSuffix(team, isTeamPage, LEAGUE)
                      && MiniCountdown(t, now)[..3] == "in ")
      && (t <= now < t + GAME_LENGTH_MS ==> status == "Game in progress!" && MiniCountdown(t, now) == "Live!")
      && (now == t + GAME_LENGTH_MS ==> status == "Game in progress!" && MiniCountdown(t, now) == "Completed")
      && (t + GAME_LENGTH_MS < now ==> status == "Game completed" && MiniCountdown(t, now) == "Completed")
  {
  }

  /** The logo: `/logos/{abbr}.svg` for an NFL team, `/logos/{league}/{abbr}.svg`
      for a team of another league, `/logos/{league}.svg` without a team
      abbreviation. */
  function LogoPath(team: Option<Team>, LEAGUE: string): string {
    var abbr := if team.Some? then ToLower(team.value.abbreviation) else "";
    if abbr != "" then
      (if LEAGUE == "NFL" then "/logos/" + abbr + ".svg"
       else "/logos/" + ToLower(LEAGUE) + "/" + abbr + ".svg")
    else "/logos/" + ToLower(LEAGUE) + ".svg"
  }

  /** Splitting "/logos/a" and "/logos/a/b" on slashes. */
  lemma LogosSplit(a: string, b: string)
    requires '/' !in a && '/' !in b
    ensures Split("/logos/" + a, '/') == ["", "logos", a]
    ensures Split("/logos/" + a + "/" + b, '/') == ["", "logos", a, b]
  {
    assert '/' !in "logos";
    JoinThree("", "logos", a, "/");
    assert "/logos/" + a == "" + "/" + "logos" + "/" + a;
    SplitJoin(["", "logos", a], '/');
    JoinFour("", "logos", a, b, "/");
    assert "/logos/" + a + "/" + b == "" + "/" + "logos" + "/" + a + "/" + b;
    SplitJoin(["", "logos", a, b], '/');
  }

  /** The three shapes of logo path, told apart by the number of slashes
      when league and abbreviation hold none. */
  lemma LogoPathShape(team: Option<Team>, LEAGUE: string)
    requires '/' !in LEAGUE && (team.Some? ==> '/' !in team.value.abbreviation)
    ensures var parts := Split(LogoPath(team, LEAGUE), '/');
      && (team.Some? && team.value.abbreviation != "" && LEAGUE != "NFL" ==>
            parts == ["", "logos", ToLower(LEAGUE), ToLower(team.value.abbreviation) + ".svg"])
      && (team.Some? && team.value.abbreviation != "" && LEAGUE == "NFL" ==>
            parts == ["", "logos", ToLower(team.value.abbreviation) + ".svg"])
      && ((team.None? || team.value.abbreviation == "") ==> parts == ["", "logos", ToLower(LEAGUE) + ".svg"])
  {
    var L := ToLower(LEAGUE);
    NoCharAfterLower(LEAGUE, '/');
    assert '/' !in ".svg";
    if team.Some? && team.value.abbreviation != "" {
      var abbr := ToLower(team.value.abbreviation);
      NoCharAfterLower(team.value.abbreviation, '/');
      assert abbr != "";
      if LEAGUE == "NFL" {
        LogosSplit(abbr + ".svg", "");
        assert LogoPath(team, LEAGUE) == "/logos/" + (abbr + ".svg");
      } else {
        LogosSplit(L, abbr + ".svg");
        assert LogoPath(team, LEAGUE) == "/logos/" + L + "/" + (abbr + ".svg");
      }
    } else {
      assert team.Some? ==> |ToLower(team.value.abbreviation)| == 0;
      LogosSplit(L + ".svg", "");
      assert LogoPath(team, LEAGUE) == "/logos/" + (L + ".svg");
    }
  }

  /** Lower-casing a string without a non-letter `c` keeps it without `c`. */
  lemma NoCharAfterLower(s: string, c: char)
    requires c !in s && !('A' <= c <= 'Z') && !('a' <= c <= 'z')
    ensures c !in ToLower(s)
  {
    forall i | 0 <= i < |s| ensures ToLower(s)[i] != c {
      assert s[i] != c;
    }
  }

  /** The opposing team of the countdown page:
      `game?.homeTeam?.abbreviation !== team?.abbreviation ? game?.homeTeam : game?.awayTeam`. */
  function OpposingTeam(game: Option<Game>, team: Option<Team>): Option<Team> {
    var homeAbbr := if game.Some? && game.value.homeTeam.Some? then Some(game.value.homeTeam.value.abbreviation) else None;
    var teamAbbr := if team.Some? then Some(team.value.abbreviation) else None;
    if game.None? then None
    else if homeAbbr != teamAbbr then game.value.homeTeam
    else game.value.awayTeam
  }

  /** With a team in view, the countdown page picks the same opponent as
      the ticket search and the preview prompt. */
  lemma OpposingTeamIsOtherSide(game: Game, team: Team)
    ensures OpposingTeam(Some(game), Some(team)) == OtherSide(game, team)
  {
  }

  /** The "vs {opponent}" line: a link to the opposing team's page and its
      name, shown only when the game has both teams. */
  function MatchupLink(game: Option<Game>, team: Option<Team>, LEAGUE: string): (r: Option<(string, string)>)
    ensures r.Some? <==> game.Some? && game.value.homeTeam.Some? && game.value.awayTeam.Some?
    ensures r.Some? && team.Some? && game.value.homeTeam.value.abbreviation == team.value.abbreviation ==>
      r.value == (TeamLink(LEAGUE, game.value.awayTeam.value), game.value.awayTeam.value.fullName)
    ensures r.Some? && (team.None? || game.value.homeTeam.value.abbreviation != team.value.abbreviation) ==>
      r.value == (TeamLink(LEAGUE, game.value.homeTeam.value), game.value.homeTeam.value.fullName)
  {
    var opposing := OpposingTeam(game, team);
    if game.Some? && game.value.awayTeam.Some? && game.value.homeTeam.Some? && opposing.Some? then
      Some((TeamLink(LEAGUE, opposing.value), opposing.value.fullName))
    else None
  }
}
