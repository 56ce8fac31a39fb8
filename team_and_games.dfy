/** The loader of a team page: the league's teams in name order, the team
    whose abbreviation the route names, and that team's games. */
module TeamAndGames {
  import opened Options
  import opened Strings
  import opened Sequences
  import opened Domain

  /** `process.env.LEAGUE ?? 'NFL'`: only an unset variable falls back; an
      empty one is kept. */
  function LeagueOf(env: Option<string>): (league: string)
    ensures env.None? ==> league == "NFL"
    ensures env.Some? ==> league == env.value
  {
    if env.Some? then env.value else "NFL"
  }

  /** String order as JavaScript's `<` compares strings: element by
      element, a proper prefix first. */
  predicate LexLe(a: string, b: string)
    decreases |a|
  {
    a == [] || (b != [] && (a[0] < b[0] || (a[0] == b[0] && LexLe(a[1..], b[1..]))))
  }

  lemma {:induction false} LexTotal(a: string, b: string)
    ensures LexLe(a, b) || LexLe(b, a)
    decreases |a|
  {
    if a != [] && b != [] && a[0] == b[0] {
      LexTotal(a[1..], b[1..]);
    }
  }

  lemma {:induction false} LexTransitive(a: string, b: string, c: string)
    requires LexLe(a, b) && LexLe(b, c)
    ensures LexLe(a, c)
    decreases |a|
  {
    if a != [] && a[0] == b[0] && b[0] == c[0] {
      LexTransitive(a[1..], b[1..], c[1..]);
    }
  }

  /** Only equal strings are ordered both ways. */
  lemma {:induction false} LexAntisymmetric(a: string, b: string)
    requires LexLe(a, b) && LexLe(b, a)
    ensures a == b
    decreases |a|
  {
    if a != [] {
      LexAntisymmetric(a[1..], b[1..]);
      assert a == [a[0]] + a[1..] && b == [b[0]] + b[1..];
    }
  }

  /** `orderBy(teams, 'fullName')`'s comparison. */
  function ByFullName(x: Team, y: Team): bool {
    LexLe(x.fullName, y.fullName)
  }

  lemma ByFullNameIsPreorder()
    ensures TotalPreorder(ByFullName)
  {
    forall x: Team, y: Team ensures ByFullName(x, y) || ByFullName(y, x) {
      LexTotal(x.fullName, y.fullName);
    }
    forall x: Team, y: Team, z: Team | ByFullName(x, y) && ByFullName(y, z) ensures ByFullName(x, z) {
      LexTransitive(x.fullName, y.fullName, z.fullName);
    }
  }

  /** A game of the basketball schedule as read: the home team's numeric id
      beside the game it maps to. */
  datatype NbaEntry = NbaEntry(homeTeamId: int, game: Game)

  /** The league data the loader reads from its JSON files. */
  datatype LeagueData = LeagueData(
    mlbTeams: seq<Team>,
    nbaTeams: seq<Team>,
    nflSchedule: seq<Game>,
    mlbGames: seq<Game>,
    nbaGames: seq<NbaEntry>)

  function TeamId(t: Team): int {
    t.id
  }

  /** `schedule.games.map(g => g.homeTeam)`. */
  function HomeTeams(games: seq<Game>): (r: seq<Team>)
    ensures forall t :: t in r ==> exists g :: g in games && g.homeTeam == Some(t)
    ensures forall g :: g in games && g.homeTeam.Some? ==> g.homeTeam.value in r
  {
    if games == [] then []
    else (if games[0].homeTeam.Some? then [games[0].homeTeam.value] else []) + HomeTeams(games[1..])
  }

  /** The league's teams before ordering: the MLB and NBA team lists, or the
      football schedule's home teams, one per id. */
  function LeagueTeams(league: string, data: LeagueData): seq<Team> {
    if league == "MLB" then data.mlbTeams
    else if league == "NBA" then data.nbaTeams
    else DedupeBy(HomeTeams(data.nflSchedule), TeamId)
  }

  function HasHomeTeam(e: NbaEntry): bool {
    e.homeTeamId > 0
  }

  function EntryGame(entries: seq<NbaEntry>): (r: seq<Game>)
    ensures |r| == |entries|
    ensures forall i :: 0 <= i < |entries| ==> r[i] == entries[i].game
  {
    if entries == [] then [] else [entries[0].game] + EntryGame(entries[1..])
  }

  /** The league's games; basketball games without a home team (id 0 or
      less) are dropped. */
  function LeagueGames(league: string, data: LeagueData): seq<Game> {
    if league == "MLB" then data.mlbGames
    else if league == "NBA" then EntryGame(Filter(data.nbaGames, HasHomeTeam))
    else data.nflSchedule
  }

  /** `g.homeTeam.id === team.id || g.awayTeam.id === team.id`. */
  predicate PlaysIn(team: Team, g: Game) {
    (g.homeTeam.Some? && g.homeTeam.value.id == team.id) || (g.awayTeam.Some? && g.awayTeam.value.id == team.id)
  }

  function Plays(team: Team): Game -> bool {
    (g: Game) => PlaysIn(team, g)
  }

  /** `t.abbreviation.toLowerCase() === teamAbbrev?.toLowerCase()`: an
      absent abbreviation matches no team. */
  predicate AbbrevMatchesIn(teamAbbrev: Option<string>, t: Team) {
    teamAbbrev.Some? && ToLower(t.abbreviation) == ToLower(teamAbbrev.value)
  }

  function AbbrevMatches(teamAbbrev: Option<string>): Team -> bool {
    (t: Team) => AbbrevMatchesIn(teamAbbrev, t)
  }

  datatype TeamAndGames = TeamAndGames(league: string, teams: seq<Team>, team: Team, games: seq<Game>)

  const NOT_FOUND := 404

  /** `getTeamAndGames`: the 404 response it throws is the error value. */
  function GetTeamAndGames(env: Option<string>, teamAbbrev: Option<string>, data: LeagueData): Result<TeamAndGames, int> {
    var league := LeagueOf(env);
    var teams := SortWith(LeagueTeams(league, data), ByFullName);
    var team := Find(teams, AbbrevMatches(teamAbbrev));
    if team.None? then Err(NOT_FOUND)
    else Ok(TeamAndGames(league, teams, team.value, Filter(LeagueGames(league, data), Plays(team.value))))
  }

  /** The page is found exactly when some team of the league has the
      route's abbreviation, compared without case; otherwise the answer is
      404. The teams are the league's own, ordered by full name; the team
      is the first of them with that abbreviation; and the games are
      exactly the league's games the team plays in, home or away. */
  lemma GetTeamAndGamesSpec(env: Option<string>, teamAbbrev: Option<string>, data: LeagueData)
    ensures var r := GetTeamAndGames(env, teamAbbrev, data);
      var all := LeagueTeams(LeagueOf(env), data);
      && (r.Err? <==> forall t :: t in all ==> !AbbrevMatchesIn(teamAbbrev, t))
      && (r.Err? ==> r.error == NOT_FOUND)
      && (r.Ok? ==>
            && r.value.league == LeagueOf(env)
            && multiset(r.value.teams) == multiset(all)
            && Sorted(r.value.teams, ByFullName)
            && r.value.team in all
            && teamAbbrev.Some?
            && ToLower(r.value.team.abbreviation) == ToLower(teamAbbrev.value)
            && (forall t :: t in all && AbbrevMatchesIn(teamAbbrev, t) ==> ByFullName(r.value.team, t))
            && (forall g :: g in r.value.games ==> PlaysIn(r.value.team, g))
            && (forall g :: g in LeagueGames(LeagueOf(env), data) && PlaysIn(r.value.team, g) ==> g in r.value.games))
  {
    var league := LeagueOf(env);
    var all := LeagueTeams(league, data);
    var teams := SortWith(all, ByFullName);
    var p := AbbrevMatches(teamAbbrev);
    ByFullNameIsPreorder();
    SortSorted(all, ByFullName);
    assert forall t :: t in teams <==> t in all by {
      forall t ensures t in teams <==> t in all {
        assert t in teams <==> t in multiset(teams);
        assert t in all <==> t in multiset(all);
      }
    }
    if Find(teams, p).Some? {
      FindInSortedIsLeast(teams, p, ByFullName);
    } else {
      forall t | t in all ensures !AbbrevMatchesIn(teamAbbrev, t) {
        var i :| 0 <= i < |teams| && teams[i] == t;
        assert !p(teams[i]);
      }
    }
  }

  /** The football teams are the schedule's home teams, one per id: no id
      is listed twice and every home team's id is listed. */
  lemma NflTeamsUnique(league: string, data: LeagueData)
    requires league != "MLB" && league != "NBA"
    ensures DistinctKeys(LeagueTeams(league, data), TeamId)
    ensures forall g :: g in data.nflSchedule && g.homeTeam.Some? ==>
      exists t :: t in LeagueTeams(league, data) && t.id == g.homeTeam.value.id
  {
    var homes := HomeTeams(data.nflSchedule);
    DedupeDistinct(homes, TeamId);
    forall g | g in data.nflSchedule && g.homeTeam.Some?
      ensures exists t :: t in LeagueTeams(league, data) && t.id == g.homeTeam.value.id
    {
      var h := g.homeTeam.value;
      assert TeamId(h) in KeySet(homes, TeamId);
      assert TeamId(h) in KeySet(DedupeBy(homes, TeamId), TeamId);
    }
  }

  /** Basketball games whose home team id is not positive are never shown. */
  lemma NbaGamesNeedHomeTeam(data: LeagueData, e: NbaEntry)
    requires e in data.nbaGames
    ensures e.homeTeamId > 0 ==> e.game in LeagueGames("NBA", data)
    ensures e.game in LeagueGames("NBA", data) ==>
      exists e' :: e' in data.nbaGames && e'.homeTeamId > 0 && e'.game == e.game
  {
    var kept := Filter(data.nbaGames, HasHomeTeam);
    if e.homeTeamId > 0 {
      assert e in kept;
      var i :| 0 <= i < |kept| && kept[i] == e;
      assert EntryGame(kept)[i] == e.game;
    }
    if e.game in LeagueGames("NBA", data) {
      var i :| 0 <= i < |EntryGame(kept)| && EntryGame(kept)[i] == e.game;
      assert kept[i] in kept;
    }
  }
}
