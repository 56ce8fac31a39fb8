/** The game slug of a game page's URL: "oct-5-2025-sea", built from the
    game's local date and the opponent's abbreviation. */
module GameSlug {
  import opened Options
  import opened Strings
  import opened Calendar
  import opened Domain

  /** The opponent as the slug names it: the home team unless its
      abbreviation is the page's, then the away team. */
  function SlugOpponent(game: Game, teamAbbrev: string): string
    requires game.homeTeam.Some? && game.awayTeam.Some?
  {
    if game.homeTeam.value.abbreviation != teamAbbrev then game.homeTeam.value.abbreviation
    else game.awayTeam.value.abbreviation
  }

  /** `getGameSlug`; `localDate` is the calendar date of the game's start
      in the server's time zone. The source's types give every game both
      teams. */
  function GameSlugOf(game: Game, teamAbbrev: string, localDate: CivilDate): Option<string>
    requires game.homeTeam.Some? && game.awayTeam.Some? && ValidDate(localDate)
  {
    if game.time.None? then None
    else Some(ToLower(MonthShort(localDate.month)) + "-" + IntToString(localDate.day) + "-"
              + IntToString(localDate.year) + "-" + ToLower(SlugOpponent(game, teamAbbrev)))
  }

  /** The month of a slug's first part. */
  function MonthOfSlug(s: string): Option<int> {
    if s == "jan" then Some(0) else if s == "feb" then Some(1) else if s == "mar" then Some(2)
    else if s == "apr" then Some(3) else if s == "may" then Some(4) else if s == "jun" then Some(5)
    else if s == "jul" then Some(6) else if s == "aug" then Some(7) else if s == "sep" then Some(8)
    else if s == "oct" then Some(9) else if s == "nov" then Some(10) else if s == "dec" then Some(11)
    else None
  }

  lemma MonthOfSlugInverts(m: int)
    requires 0 <= m < 12
    ensures MonthOfSlug(ToLower(MonthShort(m))) == Some(m)
    ensures '-' !in ToLower(MonthShort(m))
  {
    if m < 6 {
      FirstHalfSlugs(m);
    } else {
      SecondHalfSlugs(m);
    }
  }

  /** January to June. */
  lemma FirstHalfSlugs(m: int)
    requires 0 <= m < 6
    ensures MonthOfSlug(ToLower(MonthShort(m))) == Some(m)
    ensures '-' !in ToLower(MonthShort(m))
  {
    var t := ToLower(MonthShort(m));
    LowerThree(MonthShort(m));
    if m == 0 {
      assert MonthShort(0) == "Jan";
      assert t == "jan";
    } else if m == 1 {
      assert MonthShort(1) == "Feb";
      assert t == "feb";
    } else if m == 2 {
      assert MonthShort(2) == "Mar";
      assert t == "mar";
    } else if m == 3 {
      assert MonthShort(3) == "Apr";
      assert t == "apr";
    } else if m == 4 {
      assert MonthShort(4) == "May";
      assert t == "may";
    } else {
      assert MonthShort(5) == "Jun";
      assert t == "jun";
    }
  }

  /** July to December. */
  lemma SecondHalfSlugs(m: int)
    requires 6 <= m < 12
    ensures MonthOfSlug(ToLower(MonthShort(m))) == Some(m)
    ensures '-' !in ToLower(MonthShort(m))
  {
    var t := ToLower(MonthShort(m));
    LowerThree(MonthShort(m));
    if m == 6 {
      assert MonthShort(6) == "Jul";
      assert t == "jul";
    } else if m == 7 {
      assert MonthShort(7) == "Aug";
      assert t == "aug";
    } else if m == 8 {
      assert MonthShort(8) == "Sep";
      assert t == "sep";
    } else if m == 9 {
      assert MonthShort(9) == "Oct";
      assert t == "oct";
    } else if m == 10 {
      assert MonthShort(10) == "Nov";
      assert t == "nov";
    } else {
      assert MonthShort(11) == "Dec";
      assert t == "dec";
    }
  }

  lemma LowerThree(s: string)
    requires |s| == 3
    ensures ToLower(s) == [LowerChar(s[0]), LowerChar(s[1]), LowerChar(s[2])]
  {
  }

  /** Reads a slug back into month, day, year and opponent. */
  function ParseSlug(slug: string): Option<(int, int, int, string)> {
    var parts := Split(slug, '-');
    if |parts| != 4 then None
    else
      var month := MonthOfSlug(parts[0]);
      if month.None? || parts[1] == "" || parts[2] == ""
         || !(forall i :: 0 <= i < |parts[1]| ==> IsDigit(parts[1][i]))
         || !(forall i :: 0 <= i < |parts[2]| ==> IsDigit(parts[2][i]))
      then None
      else Some((month.value, ParseDigits(parts[1]), ParseDigits(parts[2]), parts[3]))
  }

  lemma DigitsHaveNoDash(n: nat)
    ensures '-' !in NatToString(n)
  {
    forall i | 0 <= i < |NatToString(n)| ensures NatToString(n)[i] != '-' {
      assert IsDigit(NatToString(n)[i]);
    }
  }

  /** A slug reads back into the game's month, day and year and the
      lower-cased opponent, when the opponent's abbreviation is one token
      (no '-') and the year is not negative; a game without a time has no
      slug. */
  lemma GameSlugRoundTrip(game: Game, teamAbbrev: string, localDate: CivilDate)
    requires game.homeTeam.Some? && game.awayTeam.Some? && ValidDate(localDate)
    requires '-' !in SlugOpponent(game, teamAbbrev) && localDate.year >= 0
    ensures game.time.None? <==> GameSlugOf(game, teamAbbrev, localDate).None?
    ensures game.time.Some? ==>
      Split(GameSlugOf(game, teamAbbrev, localDate).value, '-') ==
        [ToLower(MonthShort(localDate.month)), NatToString(localDate.day), NatToString(localDate.year),
         ToLower(SlugOpponent(game, teamAbbrev))]
    ensures game.time.Some? ==>
      ParseSlug(GameSlugOf(game, teamAbbrev, localDate).value) ==
        Some((localDate.month, localDate.day, localDate.year, ToLower(SlugOpponent(game, teamAbbrev))))
  {
    if game.time.Some? {
      var m := ToLower(MonthShort(localDate.month));
      var d := NatToString(localDate.day);
      var y := NatToString(localDate.year);
      var o := ToLower(SlugOpponent(game, teamAbbrev));
      MonthOfSlugInverts(localDate.month);
      DigitsHaveNoDash(localDate.day);
      DigitsHaveNoDash(localDate.year);
      forall i | 0 <= i < |o| ensures o[i] != '-' {
        assert SlugOpponent(game, teamAbbrev)[i] != '-';
      }
      JoinFour(m, d, y, o, "-");
      assert GameSlugOf(game, teamAbbrev, localDate).value == m + "-" + d + "-" + y + "-" + o;
      SplitJoin([m, d, y, o], '-');
      NatToStringRoundTrip(localDate.day);
      NatToStringRoundTrip(localDate.year);
    }
  }

  /** The slug names the side that is not the page's team, the same one
      the ticket search and the game preview pick, except that the slug
      compares with the page's abbreviation rather than a team record. */
  lemma SlugOpponentIsOtherSide(game: Game, team: Team)
    requires game.homeTeam.Some? && game.awayTeam.Some?
    ensures OtherSide(game, team).Some?
    ensures SlugOpponent(game, team.abbreviation) == OtherSide(game, team).value.abbreviation
  {
  }
}
