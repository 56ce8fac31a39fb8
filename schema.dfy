/** The schema.org structured data of the pages: a sports team, a sports
    event, a sports organisation and the web site. */
module Schema {
  import opened Options
  import opened Strings
  import opened Domain

  function SportName(league: string): string {
    if league == "NFL" then "American Football"
    else if league == "NBA" then "Basketball"
    else if league == "MLB" then "Baseball"
    else "Sports"
  }

  const NFL_NAME := "National Football League"
  const NBA_NAME := "National Basketball Association"
  const MLB_NAME := "Major League Baseball"

  function LeagueFullName(league: string): string {
    if league == "NFL" then NFL_NAME
    else if league == "NBA" then NBA_NAME
    else if league == "MLB" then MLB_NAME
    else league
  }

  /** The league's official site, "" for a league without one. */
  function LeagueSameAs(league: string): string {
    if league == "NFL" then "https://www.nfl.com"
    else if league == "NBA" then "https://www.nba.com"
    else if league == "MLB" then "https://www.mlb.com"
    else ""
  }

  /** The three league tables know NFL, NBA and MLB only; any other code
      is "Sports", names itself and has no official site. */
  lemma UnknownLeagues(league: string)
    requires league != "NFL" && league != "NBA" && league != "MLB"
    ensures SportName(league) == "Sports" && LeagueFullName(league) == league && LeagueSameAs(league) == ""
  {
  }

  /** The three known leagues each have their own sport, name and site. */
  lemma KnownLeaguesDistinct(a: string, b: string)
    requires a in {"NFL", "NBA", "MLB"} && b in {"NFL", "NBA", "MLB"} && a != b
    ensures SportName(a) != SportName(b) && LeagueFullName(a) != LeagueFullName(b) && LeagueSameAs(a) != LeagueSameAs(b)
    ensures LeagueSameAs(a) != "" && SportName(a) != "Sports"
  {
  }

  /** `extractCityFromTeamName`: every word of the name but the last. */
  function ExtractCity(teamFullName: string): string {
    DropLastWord(teamFullName)
  }

  /** The city and the last word make the name again, joined by one space;
      a one-word name has no city. */
  lemma ExtractCitySpec(teamFullName: string)
    ensures ' ' in teamFullName ==> ExtractCity(teamFullName) + " " + LastWord(teamFullName) == teamFullName
    ensures ' ' !in teamFullName ==> ExtractCity(teamFullName) == ""
  {
    CityAndLastWord(teamFullName);
  }

  datatype TeamSchema = TeamSchema(name: string, sport: string, url: string, logo: string,
                                   memberOfName: string, memberOfSport: string)

  function TeamLogoFolder(league: string): string {
    if league == "NFL" then "" else ToLower(league) + "/"
  }

  function SportsTeamSchema(team: Team, league: string, url: string): TeamSchema {
    TeamSchema(team.fullName, SportName(league), url,
               "https://teamcountdown.com/logos/" + TeamLogoFolder(league) + ToLower(team.abbreviation) + ".svg",
               LeagueFullName(league), SportName(league))
  }

  /** The team logo sits under a folder named after the league, except for
      the NFL, whose logos sit at the top. */
  lemma TeamLogoPath(team: Team, league: string)
    requires '/' !in league && '/' !in team.abbreviation
    ensures var logo := SportsTeamSchema(team, league, "").logo;
      var file := ToLower(team.abbreviation) + ".svg";
      && (league == "NFL" ==> Split(logo, '/') == ["https:", "", "teamcountdown.com", "logos", file])
      && (league != "NFL" ==> Split(logo, '/') == ["https:", "", "teamcountdown.com", "logos", ToLower(league), file])
  {
    if league == "NFL" {
      NflLogoPath(team);
    } else {
      LeagueLogoPath(team, league);
    }
  }

  lemma NflLogoPath(team: Team)
    requires '/' !in team.abbreviation
    ensures Split(SportsTeamSchema(team, "NFL", "").logo, '/')
         == ["https:", "", "teamcountdown.com", "logos", ToLower(team.abbreviation) + ".svg"]
  {
    var file := ToLower(team.abbreviation) + ".svg";
    NoSlashAfterLower(team.abbreviation);
    NoSlashInFile(ToLower(team.abbreviation));
    assert TeamLogoFolder("NFL") == "";
    assert SportsTeamSchema(team, "NFL", "").logo == "https://teamcountdown.com/logos/" + file;
    LogoUrlSplit(file);
    SplitNone(file, '/');
  }

  lemma LeagueLogoPath(team: Team, league: string)
    requires '/' !in league && '/' !in team.abbreviation && league != "NFL"
    ensures Split(SportsTeamSchema(team, league, "").logo, '/')
         == ["https:", "", "teamcountdown.com", "logos", ToLower(league), ToLower(team.abbreviation) + ".svg"]
  {
    var file := ToLower(team.abbreviation) + ".svg";
    NoSlashAfterLower(team.abbreviation);
    NoSlashInFile(ToLower(team.abbreviation));
    NoSlashAfterLower(league);
    LeagueLogoSplit(ToLower(league), file);
    assert SportsTeamSchema(team, league, "").logo == "https://teamcountdown.com/logos/" + (ToLower(league) + "/" + file);
  }

  lemma NoSlashInFile(name: string)
    requires '/' !in name
    ensures '/' !in name + ".svg"
  {
    assert '/' !in ".svg";
  }

  /** A logo inside a league folder splits into the base pieces, the folder
      and the file. */
  lemma LeagueLogoSplit(L: string, file: string)
    requires '/' !in L && '/' !in file
    ensures Split("https://teamcountdown.com/logos/" + (L + "/" + file), '/')
         == ["https:", "", "teamcountdown.com", "logos", L, file]
  {
    SplitCons(L, '/', file);
    SplitNone(file, '/');
    LogoUrlSplit(L + "/" + file);
  }

  /** Splitting the logo base URL followed by `rest` on slashes. */
  lemma LogoUrlSplit(rest: string)
    ensures Split("https://teamcountdown.com/logos/" + rest, '/')
         == ["https:", "", "teamcountdown.com", "logos"] + Split(rest, '/')
  {
    var pieces := ["https:", "", "teamcountdown.com", "logos"];
    LogoBasePieces();
    assert "https://teamcountdown.com/logos/" + rest == Join(pieces, ['/']) + ['/'] + rest;
    SplitAfter(pieces, '/', rest);
  }

  /** The logo base URL is four slash-free pieces joined by slashes. */
  lemma LogoBasePieces()
    ensures Join(["https:", "", "teamcountdown.com", "logos"], ['/']) + ['/'] == "https://teamcountdown.com/logos/"
    ensures forall i :: 0 <= i < 4 ==> '/' !in ["https:", "", "teamcountdown.com", "logos"][i]
  {
    JoinFour("https:", "", "teamcountdown.com", "logos", "/");
    LogoBaseSpelled();
    LogoPiecesNoSlash();
  }

  lemma LogoBaseSpelled()
    ensures "https:" + "/" + "" + "/" + "teamcountdown.com" + "/" + "logos" + "/" == "https://teamcountdown.com/logos/"
  {
  }

  lemma LogoPiecesNoSlash()
    ensures '/' !in "https:" && '/' !in "" && '/' !in "teamcountdown.com" && '/' !in "logos"
  {
  }

  lemma NoSlashAfterLower(s: string)
    requires '/' !in s
    ensures '/' !in ToLower(s)
  {
    forall i | 0 <= i < |s| ensures ToLower(s)[i] != '/' {
      assert s[i] != '/';
    }
  }

  datatype Place = Place(name: string, addressLocality: string)

  datatype EventSchema = EventSchema(
    name: string,
    description: string,
    startDate: string,
    eventStatus: string,
    sport: string,
    url: string,
    location: Place,
    homeTeam: TeamSchema,
    awayTeam: TeamSchema,
    organizerName: string,
    organizerUrl: string)

  function EventTeam(team: Team, league: string): TeamSchema {
    var url := "https://teamcountdown.com/" + ToLower(league) + "/" + ToLower(team.abbreviation);
    TeamSchema(team.fullName, SportName(league), url, "", "", "")
  }

  /** `generateSportsEventSchema`: nothing unless the game has both teams
      and a time. */
  function SportsEventSchema(game: Game, team: Team, league: string, url: string): Option<EventSchema> {
    if game.homeTeam.None? || game.awayTeam.None? || game.time.None? then None
    else
      var home := game.homeTeam.value;
      var away := game.awayTeam.value;
      var city := ExtractCity(home.fullName);
      Some(EventSchema(
        home.fullName + " vs " + away.fullName,
        league + " game between " + home.fullName + " and " + away.fullName,
        game.time.value.iso,
        "https://schema.org/EventScheduled",
        SportName(league),
        url,
        Place(city, city),
        EventTeam(home, league),
        EventTeam(away, league),
        LeagueFullName(league),
        "https://teamcountdown.com/" + ToLower(league)))
  }

  /** An event is described exactly when the game has both teams and a
      time; it is held in the home team's city, names home before away,
      and links each team to its own page. */
  lemma SportsEventSchemaSpec(game: Game, team: Team, league: string, url: string)
    ensures SportsEventSchema(game, team, league, url).Some? <==>
      game.homeTeam.Some? && game.awayTeam.Some? && game.time.Some?
    ensures var e := SportsEventSchema(game, team, league, url);
      e.Some? ==>
        && e.value.location.name == e.value.location.addressLocality
        && (' ' in game.homeTeam.value.fullName ==>
              e.value.location.name + " " + LastWord(game.homeTeam.value.fullName) == game.homeTeam.value.fullName)
        && e.value.name[..|game.homeTeam.value.fullName|] == game.homeTeam.value.fullName
        && e.value.homeTeam.name == game.homeTeam.value.fullName
        && e.value.awayTeam.name == game.awayTeam.value.fullName
        && e.value.startDate == game.time.value.iso
  {
    if game.homeTeam.Some? {
      CityAndLastWord(game.homeTeam.value.fullName);
    }
  }

  datatype OrganizationSchema = OrganizationSchema(
    name: string, alternateName: string, sport: string, url: string, logo: string, sameAs: seq<string>)

  /** The organisation's logo file: football for the NFL, basketball for a
      league whose code lower-cases to "nba", baseball for every other. */
  function OrganizationLogoFile(league: string): string {
    if league == "NFL" then "football"
    else if ToLower(league) == "nba" then "basketball"
    else "baseball"
  }

  function SportsOrganizationSchema(league: string, url: string): OrganizationSchema {
    OrganizationSchema(LeagueFullName(league), league, SportName(league), url,
                       "https://teamcountdown.com/" + OrganizationLogoFile(league) + ".svg",
                       [LeagueSameAs(league)])
  }

  /** The organisation logo of the leagues the site serves: every league
      other than the NFL and the NBA gets the baseball logo, hockey and
      soccer leagues included. */
  lemma OrganizationLogos()
    ensures OrganizationLogoFile("NFL") == "football"
    ensures OrganizationLogoFile("NBA") == "basketball" && OrganizationLogoFile("nba") == "basketball"
    ensures OrganizationLogoFile("MLB") == "baseball" && OrganizationLogoFile("NHL") == "baseball"
    ensures OrganizationLogoFile("WNBA") == "baseball" && OrganizationLogoFile("MLS") == "baseball"
    ensures OrganizationLogoFile("CPL") == "baseball"
  {
    assert ToLower("NBA") == "nba";
    assert ToLower("MLB")[0] == 'm';
    assert ToLower("NHL")[1] == 'h';
    assert |ToLower("WNBA")| == 4;
    assert ToLower("MLS")[0] == 'm';
    assert ToLower("CPL")[0] == 'c';
  }

  datatype WebSiteSchema = WebSiteSchema(name: string, url: string, description: string, about: seq<string>)

  const SITE_DESCRIPTION :=
    "The fastest and prettiest way to check the next NFL, NBA, or MLB game. Launches instantly from your home screen."

  /** The web site record names the three original leagues. */
  function SiteSchema(): (r: WebSiteSchema)
    ensures |r.about| == 3
    ensures LeagueFullName("NFL") in r.about && LeagueFullName("NBA") in r.about && LeagueFullName("MLB") in r.about
  {
    WebSiteSchema("Team Countdown", "https://teamcountdown.com", SITE_DESCRIPTION, [NFL_NAME, NBA_NAME, MLB_NAME])
  }
}
