/** The page metadata of a team page and a game page: title, description,
    theme colour, Open Graph tags and the canonical link. */
module Meta {
  import opened Options
  import opened Strings
  import opened Calendar
  import opened Domain
  import GamePreviews

  /** `(home is the team ? away?.fullName : home?.fullName) ?? 'TBD'`: an
      empty name is kept, only a missing side becomes TBD. */
  function MetaOpponent(game: Game, team: Team): string {
    var side := OtherSide(game, team);
    if side.Some? then side.value.fullName else "TBD"
  }

  datatype MetaTags = MetaTags(
    title: string,
    description: string,
    themeColor: string,
    ogTitle: string,
    ogType: string,
    ogUrl: string,
    ogImage: string,
    ogDescription: string,
    siteName: string,
    canonical: string)

  function SiteBase(LEAGUE: string): string {
    "https://" + ToLower(LEAGUE) + "countdown.tweeres.com"
  }

  /** The title and the description: a game page names both sides and,
      when the game has a time, its date; a team page asks for the next
      game. */
  function PageTexts(LEAGUE: string, team: Team, game: Option<Game>, localDate: CivilDate): (string, string)
    requires ValidDate(localDate)
  {
    if game.Some? then
      var opponent := MetaOpponent(game.value, team);
      var date := if game.value.time.Some? then MediumDate(localDate) else "";
      var forTitle := if game.value.time.Some? then " - " + date else "";
      var forDescription := if game.value.time.Some? then " on " + date else "";
      (team.fullName + " vs " + opponent + forTitle + " - " + LEAGUE + " Countdown",
       "Countdown to " + team.fullName + " vs " + opponent + forDescription + ". Launches instantly from your home screen.")
    else
      ("When is the next " + team.fullName + " game? - " + LEAGUE + " Countdown",
       "The fastest and prettiest way to check the next " + team.fullName + " game. Launches instantly from your home screen.")
  }

  /** The page URL: the team page, followed by the slug on a game page. */
  function PageUrl(LEAGUE: string, abbr: string, game: Option<Game>, gameSlug: string): string {
    SiteBase(LEAGUE) + "/" + abbr + (if game.Some? then "/" + gameSlug else "")
  }

  /** `generateMeta`. `gameSlug` is the route's slug parameter and
      `localDate` the calendar date of the game's start in the server's
      time zone (read only when the game has a time). */
  function GenerateMeta(LEAGUE: string, team: Team, game: Option<Game>, gameSlug: string, localDate: CivilDate): MetaTags
    requires ValidDate(localDate)
  {
    var abbr := ToLower(team.abbreviation);
    var texts := PageTexts(LEAGUE, team, game, localDate);
    var title := texts.0;
    var description := texts.1;
    var ogImage := SiteBase(LEAGUE) + "/og/" + abbr;
    var url := PageUrl(LEAGUE, abbr, game, gameSlug);
    MetaTags(title, description, team.primaryColor, title, "website", url, ogImage, description,
             LEAGUE + " Countdown", url)
  }

  /** The Open Graph title, description and URL repeat the page's own, the
      canonical link is the page URL, every title ends in the site name,
      and a game page's URL is its team page's URL with the slug added. */
  lemma MetaSpec(LEAGUE: string, team: Team, game: Option<Game>, gameSlug: string, localDate: CivilDate)
    requires ValidDate(localDate)
    ensures var m := GenerateMeta(LEAGUE, team, game, gameSlug, localDate);
      && m.ogTitle == m.title && m.ogDescription == m.description && m.canonical == m.ogUrl
      && m.siteName == LEAGUE + " Countdown"
      && |m.title| >= |" - " + LEAGUE + " Countdown"|
      && m.title[|m.title| - |" - " + LEAGUE + " Countdown"|..] == " - " + LEAGUE + " Countdown"
      && (game.Some? ==> m.ogUrl == GenerateMeta(LEAGUE, team, None, gameSlug, localDate).ogUrl + "/" + gameSlug)
      && m.ogImage == SiteBase(LEAGUE) + "/og/" + ToLower(team.abbreviation)
  {
    var tail := " - " + LEAGUE + " Countdown";
    var head := TitleHead(team, game, localDate);
    TitleEndsWithSiteName(LEAGUE, team, game, localDate);
    EndsWith(head, tail);
    if game.Some? {
      GameUrlExtendsTeamUrl(LEAGUE, ToLower(team.abbreviation), game.value, gameSlug);
    }
  }

  /** What a title says before the site name. */
  function TitleHead(team: Team, game: Option<Game>, localDate: CivilDate): string
    requires ValidDate(localDate)
  {
    if game.Some? then
      team.fullName + " vs " + MetaOpponent(game.value, team)
        + (if game.value.time.Some? then " - " + MediumDate(localDate) else "")
    else "When is the next " + team.fullName + " game?"
  }

  lemma TitleEndsWithSiteName(LEAGUE: string, team: Team, game: Option<Game>, localDate: CivilDate)
    requires ValidDate(localDate)
    ensures PageTexts(LEAGUE, team, game, localDate).0 == TitleHead(team, game, localDate) + (" - " + LEAGUE + " Countdown")
  {
  }

  lemma EndsWith(head: string, tail: string)
    ensures |head + tail| >= |tail| && (head + tail)[|head + tail| - |tail|..] == tail
  {
  }

  lemma GameUrlExtendsTeamUrl(LEAGUE: string, abbr: string, game: Game, gameSlug: string)
    ensures PageUrl(LEAGUE, abbr, Some(game), gameSlug) == PageUrl(LEAGUE, abbr, None, gameSlug) + "/" + gameSlug
  {
    assert SiteBase(LEAGUE) + "/" + abbr + ("/" + gameSlug) == (SiteBase(LEAGUE) + "/" + abbr + "") + "/" + gameSlug;
  }

  /** Where the team is present and the game's other side has a name, the
      title names the same opponent as the game preview; a side with an
      empty name shows as empty here and as TBD in the preview. */
  lemma MetaOpponentAgreesWithPreview(game: Game, team: Team)
    ensures OtherSide(game, team).None? ==> MetaOpponent(game, team) == "TBD" == GamePreviews.OpponentName(game, team)
    ensures OtherSide(game, team).Some? && OtherSide(game, team).value.fullName != "" ==>
      MetaOpponent(game, team) == GamePreviews.OpponentName(game, team)
    ensures OtherSide(game, team).Some? && OtherSide(game, team).value.fullName == "" ==>
      MetaOpponent(game, team) == "" && GamePreviews.OpponentName(game, team) == "TBD"
  {
  }

  /** A game page's title carries the date fragment exactly when the game
      has a time. */
  lemma MetaDateFragment(LEAGUE: string, team: Team, game: Game, gameSlug: string, localDate: CivilDate)
    requires ValidDate(localDate)
    ensures game.time.None? ==>
      GenerateMeta(LEAGUE, team, Some(game), gameSlug, localDate).title
        == team.fullName + " vs " + MetaOpponent(game, team) + " - " + LEAGUE + " Countdown"
    ensures game.time.Some? ==>
      GenerateMeta(LEAGUE, team, Some(game), gameSlug, localDate).title
        == team.fullName + " vs " + MetaOpponent(game, team) + " - " + MediumDate(localDate) + " - " + LEAGUE + " Countdown"
  {
  }
}
