/** The conversions of the NHL, WNBA and MLS schedule feeds into the
    common `Game`: team records with colours from a per-league colour
    table, and a broadcast line listing national networks first, then the
    viewed team's local networks, then the opponent's, each once. */
module GameMappers {
  import opened Options
  import opened Strings
  import opened Sequences
  import opened Domain

  /** JavaScript's `s || fallback` on a string: an empty (or missing)
      string falls back. */
  function OrElse(s: string, fallback: string): (r: string)
    ensures s != "" ==> r == s
    ensures s == "" ==> r == fallback
  {
    if s != "" then s else fallback
  }

  /** A row of a league's colour table. */
  datatype ColorEntry = ColorEntry(abbreviation: string, color1: string, color2: string)

  /** The first row of the table for `abbreviation`. */
  function ColorsOf(colors: seq<ColorEntry>, abbreviation: string): (r: Option<ColorEntry>)
    ensures r.Some? ==> r.value in colors && r.value.abbreviation == abbreviation
    ensures r.None? <==> forall c :: c in colors ==> c.abbreviation != abbreviation
  {
    Find(colors, (c: ColorEntry) => c.abbreviation == abbreviation)
  }

  /** The colour pair of a team: the table's colours, each falling back to
      black and white when the row is missing or the colour empty. */
  function TeamColors(colors: seq<ColorEntry>, abbreviation: string): (string, string)
  {
    var row := ColorsOf(colors, abbreviation);
    (OrElse(if row.Some? then row.value.color1 else "", "#000"),
     OrElse(if row.Some? then row.value.color2 else "", "#fff"))
  }

  /** Both colours are always set, and they are the table's own whenever
      the team has a row with non-empty colours. */
  lemma TeamColorsSpec(colors: seq<ColorEntry>, abbreviation: string)
    ensures var (p, q) := TeamColors(colors, abbreviation);
      && p != "" && q != ""
      && ((forall c :: c in colors ==> c.abbreviation != abbreviation) ==> p == "#000" && q == "#fff")
    ensures forall i :: (0 <= i < |colors| && colors[i].abbreviation == abbreviation
        && (forall j :: 0 <= j < i ==> colors[j].abbreviation != abbreviation)
        && colors[i].color1 != "" && colors[i].color2 != "") ==>
      TeamColors(colors, abbreviation) == (colors[i].color1, colors[i].color2)
  {
    forall i | 0 <= i < |colors| && colors[i].abbreviation == abbreviation
        && (forall j :: 0 <= j < i ==> colors[j].abbreviation != abbreviation)
        && colors[i].color1 != "" && colors[i].color2 != ""
      ensures TeamColors(colors, abbreviation) == (colors[i].color1, colors[i].color2)
    {
      FindFirst(colors, (c: ColorEntry) => c.abbreviation == abbreviation, i);
    }
  }

  /** `Find` returns the first match. */
  lemma {:induction false} FindFirst<T>(s: seq<T>, p: T -> bool, i: nat)
    requires i < |s| && p(s[i]) && forall j :: 0 <= j < i ==> !p(s[j])
    ensures Find(s, p) == Some(s[i])
  {
    assert FirstIndex(s, p) == i by {
      FirstIndexIs(s, p, i);
    }
  }

  lemma {:induction false} FirstIndexIs<T>(s: seq<T>, p: T -> bool, i: nat)
    requires i < |s| && p(s[i]) && forall j :: 0 <= j < i ==> !p(s[j])
    ensures FirstIndex(s, p) == i
  {
    if i > 0 {
      FirstIndexIs(s[1..], p, i - 1);
    }
  }

  /** The identity on names: `new Set` de-duplicates by the name itself. */
  function Itself(x: string): string { x }

  /** The broadcast line: national networks, then the viewed team's local
      networks, then the opponent's (home first when no team is viewed),
      duplicates dropped at their later places, joined by ", "; `None`
      when there is no network at all. */
  function BroadcastLine(national: seq<string>, home: seq<string>, away: seq<string>,
                         viewing: Option<string>, homeAbbrev: string): Option<string>
  {
    var ordered := if viewing.None? || viewing.value == homeAbbrev
                   then national + home + away else national + away + home;
    if |ordered| > 0 then Some(Join(DedupeBy(ordered, Itself), ", ")) else None
  }

  /** The networks of a broadcast line, in order. */
  function LineNetworks(national: seq<string>, home: seq<string>, away: seq<string>,
                        viewing: Option<string>, homeAbbrev: string): seq<string>
  {
    var ordered := if viewing.None? || viewing.value == homeAbbrev
                   then national + home + away else national + away + home;
    DedupeBy(ordered, Itself)
  }

  /** The line lists every network of the three lists and no other, each
      once; the national networks open it, followed by the viewed team's
      own local networks; it is missing exactly when there is no network. */
  lemma BroadcastLineSpec(national: seq<string>, home: seq<string>, away: seq<string>,
                          viewing: Option<string>, homeAbbrev: string)
    ensures var line := BroadcastLine(national, home, away, viewing, homeAbbrev);
      var d := LineNetworks(national, home, away, viewing, homeAbbrev);
      && (line.None? <==> national == [] && home == [] && away == [])
      && (line.Some? ==> line.value == Join(d, ", "))
      && (forall x :: x in d <==> x in national || x in home || x in away)
      && (forall i, j :: 0 <= i < j < |d| ==> d[i] != d[j])
      && |DedupeBy(national, Itself)| <= |d|
      && d[..|DedupeBy(national, Itself)|] == DedupeBy(national, Itself)
      && var mine := if viewing.None? || viewing.value == homeAbbrev then home else away;
         |DedupeBy(national + mine, Itself)| <= |d|
         && d[..|DedupeBy(national + mine, Itself)|] == DedupeBy(national + mine, Itself)
  {
    var mine := if viewing.None? || viewing.value == homeAbbrev then home else away;
    var theirs := if viewing.None? || viewing.value == homeAbbrev then away else home;
    var ordered := national + mine + theirs;
    DedupeDistinct(ordered, Itself);
    DedupeMembers(ordered);
    DedupeKeepsPrefixes(national, mine, theirs);
  }

  /** De-duplicating names keeps exactly the names there are. */
  lemma DedupeMembers(s: seq<string>)
    ensures forall x :: x in DedupeBy(s, Itself) <==> x in s
  {
    var d := DedupeBy(s, Itself);
    forall x | x in s ensures x in d {
      assert Itself(x) in KeySet(s, Itself);
      var y :| y in d && Itself(y) == Itself(x);
    }
  }

  /** The de-duplicated national networks, and the national networks with
      the viewed team's, open the de-duplicated line. */
  lemma DedupeKeepsPrefixes(national: seq<string>, mine: seq<string>, theirs: seq<string>)
    ensures var d := DedupeBy(national + mine + theirs, Itself);
      && |DedupeBy(national, Itself)| <= |d|
      && d[..|DedupeBy(national, Itself)|] == DedupeBy(national, Itself)
      && |DedupeBy(national + mine, Itself)| <= |d|
      && d[..|DedupeBy(national + mine, Itself)|] == DedupeBy(national + mine, Itself)
  {
    DedupePrefix(national + mine, theirs, Itself);
    assert national + mine + theirs == national + (mine + theirs);
    DedupePrefix(national, mine + theirs, Itself);
  }

  // ---- NHL ----

  datatype NhlTeamApi = NhlTeamApi(id: int, placeName: string, commonName: string, abbrev: string)

  /** A TV broadcast of the NHL feed; `market` is "N", "H" or "A". */
  datatype TvBroadcast = TvBroadcast(market: string, network: string)

  datatype NhlGameApi = NhlGameApi(
    id: int,
    startTimeUTC: Option<Stamp>,
    homeTeam: NhlTeamApi,
    awayTeam: NhlTeamApi,
    tvBroadcasts: Option<seq<TvBroadcast>>)

  function NhlTeamToTeam(colors: seq<ColorEntry>, t: NhlTeamApi): Team {
    var (primary, secondary) := TeamColors(colors, t.abbrev);
    Team(t.id, t.commonName, t.placeName + " " + t.commonName, t.abbrev, primary, secondary)
  }

  /** The networks of one market, in feed order. */
  function Networks(broadcasts: seq<TvBroadcast>, market: string): (r: seq<string>)
    ensures |r| <= |broadcasts|
    ensures forall x :: x in r <==> exists b :: b in broadcasts && b.market == market && b.network == x
  {
    if broadcasts == [] then []
    else
      var rest := Networks(broadcasts[1..], market);
      assert forall b :: b in broadcasts[1..] ==> b in broadcasts;
      assert forall b :: b in broadcasts ==> b == broadcasts[0] || b in broadcasts[1..];
      if broadcasts[0].market == market then [broadcasts[0].network] + rest else rest
  }

  function NhlGameToGame(colors: seq<ColorEntry>, g: NhlGameApi, viewing: Option<string>): Game {
    var bs := if g.tvBroadcasts.Some? then g.tvBroadcasts.value else [];
    Game(IntToString(g.id), g.startTimeUTC,
         Some(NhlTeamToTeam(colors, g.homeTeam)), Some(NhlTeamToTeam(colors, g.awayTeam)),
         false,
         BroadcastLine(Networks(bs, "N"), Networks(bs, "H"), Networks(bs, "A"), viewing, g.homeTeam.abbrev))
  }

  /** A market has no networks exactly when no broadcast is of that market. */
  lemma {:induction false} NetworksEmpty(broadcasts: seq<TvBroadcast>, market: string)
    ensures Networks(broadcasts, market) == [] <==> forall b :: b in broadcasts ==> b.market != market
  {
    if broadcasts != [] {
      NetworksEmpty(broadcasts[1..], market);
      assert broadcasts[0] in broadcasts;
      assert forall b :: b in broadcasts ==> b == broadcasts[0] || b in broadcasts[1..];
    }
  }

  /** The NHL broadcast line is missing exactly when the feed lists no
      national, home or away broadcast. */
  lemma NhlBroadcastMissing(bs: seq<TvBroadcast>, viewing: Option<string>, homeAbbrev: string)
    ensures BroadcastLine(Networks(bs, "N"), Networks(bs, "H"), Networks(bs, "A"), viewing, homeAbbrev).None?
      <==> forall b :: b in bs ==> b.market != "N" && b.market != "H" && b.market != "A"
  {
    BroadcastLineSpec(Networks(bs, "N"), Networks(bs, "H"), Networks(bs, "A"), viewing, homeAbbrev);
    NetworksEmpty(bs, "N");
    NetworksEmpty(bs, "H");
    NetworksEmpty(bs, "A");
  }

  /** An NHL game has both teams, a fixed time and the id's decimal text;
      its broadcast line is missing exactly when the feed lists no
      national, home or away broadcast. */
  lemma NhlGameSpec(colors: seq<ColorEntry>, g: NhlGameApi, viewing: Option<string>)
    ensures var game := NhlGameToGame(colors, g, viewing);
      var bs := if g.tvBroadcasts.Some? then g.tvBroadcasts.value else [];
      && game.homeTeam.Some? && game.awayTeam.Some? && !game.startTimeTbd
      && (g.id >= 0 ==> ParseDigits(game.id) == g.id)
      && game.homeTeam.value.abbreviation == g.homeTeam.abbrev
      && (game.broadcast.None? <==> forall b :: b in bs ==> b.market != "N" && b.market != "H" && b.market != "A")
  {
    var bs := if g.tvBroadcasts.Some? then g.tvBroadcasts.value else [];
    if g.id >= 0 {
      NatToStringRoundTrip(g.id);
    }
    NhlBroadcastMissing(bs, viewing, g.homeTeam.abbrev);
  }

  /** The full name is the place and the common name; with a one-word
      common name, dropping the last word gives the place back. */
  lemma NhlFullName(colors: seq<ColorEntry>, t: NhlTeamApi)
    requires ' ' !in t.commonName
    ensures DropLastWord(NhlTeamToTeam(colors, t).fullName) == t.placeName
    ensures LastWord(NhlTeamToTeam(colors, t).fullName) == t.commonName
  {
    var a := t.placeName;
    SplitAppend(a, t.commonName);
    JoinSplit(a, ' ');
    assert " " == [' '];
    var parts := Split(a, ' ') + [t.commonName];
    assert parts[..|parts| - 1] == Split(a, ' ');
  }

  /** Splitting "a b" on spaces when `b` has no space: the pieces of `a`,
      then `b`. */
  lemma {:induction false} SplitAppend(a: string, b: string)
    requires ' ' !in b
    ensures Split(a + " " + b, ' ') == Split(a, ' ') + [b]
    decreases |a|
  {
    if a == [] {
      assert a + " " + b == [' '] + b;
      SplitNone(b, ' ');
      assert ([' '] + b)[1..] == b;
    } else {
      var s := a + " " + b;
      assert s[0] == a[0] && s[1..] == a[1..] + " " + b;
      SplitAppend(a[1..], b);
      var rest := Split(a[1..], ' ');
      if a[0] == ' ' {
        assert Split(s, ' ') == [""] + (rest + [b]);
        ConsAppend("", rest, [b]);
      } else {
        assert (rest + [b])[0] == rest[0];
        assert (rest + [b])[1..] == rest[1..] + [b];
        assert Split(s, ' ') == [[a[0]] + rest[0]] + (rest[1..] + [b]);
        ConsAppend([a[0]] + rest[0], rest[1..], [b]);
      }
    }
  }

  // ---- WNBA ----

  datatype WnbaTeamApi = WnbaTeamApi(teamId: int, teamCity: string, teamName: string, teamTricode: string)

  /** The three broadcaster lists of a WNBA game, as their display names;
      `None` where the list is missing. */
  datatype WnbaBroadcasters = WnbaBroadcasters(
    national: Option<seq<string>>,
    home: Option<seq<string>>,
    away: Option<seq<string>>)

  datatype WnbaGameApi = WnbaGameApi(
    gameId: string,
    gameDateTimeUTC: Option<Stamp>,
    homeTeam: WnbaTeamApi,
    awayTeam: WnbaTeamApi,
    broadcasters: Option<WnbaBroadcasters>)

  function WnbaTeamToTeam(colors: seq<ColorEntry>, t: WnbaTeamApi): Team {
    var (primary, secondary) := TeamColors(colors, t.teamTricode);
    Team(t.teamId, t.teamName, t.teamCity + " " + t.teamName, t.teamTricode, primary, secondary)
  }

  /** `list?.map(b => b.broadcasterDisplay).filter(Boolean) || []`. */
  function Displays(list: Option<seq<string>>): (r: seq<string>)
    ensures forall x :: x in r <==> list.Some? && x in list.value && x != ""
  {
    if list.None? then [] else Filter(list.value, (x: string) => x != "")
  }

  function WnbaGameToGame(colors: seq<ColorEntry>, g: WnbaGameApi, viewing: Option<string>): Game {
    var b := if g.broadcasters.Some? then g.broadcasters.value else WnbaBroadcasters(None, None, None);
    Game(g.gameId, g.gameDateTimeUTC,
         Some(WnbaTeamToTeam(colors, g.homeTeam)), Some(WnbaTeamToTeam(colors, g.awayTeam)),
         false,
         BroadcastLine(Displays(b.national), Displays(b.home), Displays(b.away), viewing, g.homeTeam.teamTricode))
  }

  /** A WNBA game's broadcast line never lists an empty name and is
      missing exactly when every list is missing or holds only empty names. */
  lemma WnbaGameSpec(colors: seq<ColorEntry>, g: WnbaGameApi, viewing: Option<string>)
    ensures var game := WnbaGameToGame(colors, g, viewing);
      var b := if g.broadcasters.Some? then g.broadcasters.value else WnbaBroadcasters(None, None, None);
      var d := LineNetworks(Displays(b.national), Displays(b.home), Displays(b.away), viewing, g.homeTeam.teamTricode);
      && game.homeTeam.Some? && game.awayTeam.Some? && !game.startTimeTbd && game.id == g.gameId
      && (game.broadcast.None? <==>
            (forall x :: (b.national.Some? && x in b.national.value) ==> x == "")
            && (forall x :: (b.home.Some? && x in b.home.value) ==> x == "")
            && (forall x :: (b.away.Some? && x in b.away.value) ==> x == ""))
      && (game.broadcast.Some? ==> game.broadcast.value == Join(d, ", ") && "" !in d)
  {
    var b := if g.broadcasters.Some? then g.broadcasters.value else WnbaBroadcasters(None, None, None);
    var n, h, a := Displays(b.national), Displays(b.home), Displays(b.away);
    BroadcastLineSpec(n, h, a, viewing, g.homeTeam.teamTricode);
    if n != [] { assert n[0] in n; }
    if h != [] { assert h[0] in h; }
    if a != [] { assert a[0] in a; }
  }

  function WnbaTeamId(t: WnbaTeamApi): int {
    t.teamId
  }

  /** Placeholder teams carry an id of 0 or less. */
  function IsRealTeam(t: WnbaTeamApi): bool {
    t.teamId > 0
  }

  /** `games.map(g => g.homeTeam)`. */
  function WnbaHomes(games: seq<WnbaGameApi>): (r: seq<WnbaTeamApi>)
    ensures |r| == |games|
    ensures forall i :: 0 <= i < |games| ==> r[i] == games[i].homeTeam
  {
    if games == [] then [] else [games[0].homeTeam] + WnbaHomes(games[1..])
  }

  /** The WNBA team list: the home teams of the schedule, one per team id
      in order of first appearance, without the placeholder ids (0 or less). */
  function WnbaTeams(games: seq<WnbaGameApi>): seq<WnbaTeamApi>
  {
    Filter(DedupeBy(WnbaHomes(games), WnbaTeamId), IsRealTeam)
  }

  /** Every team listed hosts a game, no id repeats, no id is a
      placeholder, and every team id with a home game is listed. */
  lemma WnbaTeamsSpec(games: seq<WnbaGameApi>)
    ensures var teams := WnbaTeams(games);
      && (forall t :: t in teams ==> t.teamId > 0 && exists i :: 0 <= i < |games| && games[i].homeTeam == t)
      && (forall i, j :: 0 <= i < j < |teams| ==> teams[i].teamId != teams[j].teamId)
      && (forall i :: 0 <= i < |games| && games[i].homeTeam.teamId > 0 ==>
            exists t :: t in teams && t.teamId == games[i].homeTeam.teamId)
  {
    WnbaTeamsHost(games);
    WnbaTeamsDistinct(games);
    WnbaTeamsCover(games);
  }

  lemma WnbaTeamsHost(games: seq<WnbaGameApi>)
    ensures forall t :: t in WnbaTeams(games) ==> t.teamId > 0 && exists i :: 0 <= i < |games| && games[i].homeTeam == t
  {
    var homes := WnbaHomes(games);
    forall t | t in WnbaTeams(games) ensures t.teamId > 0 && exists i :: 0 <= i < |games| && games[i].homeTeam == t {
      assert t in DedupeBy(homes, WnbaTeamId);
      var i :| 0 <= i < |homes| && homes[i] == t;
    }
  }

  lemma WnbaTeamsDistinct(games: seq<WnbaGameApi>)
    ensures DistinctKeys(WnbaTeams(games), WnbaTeamId)
  {
    var d := DedupeBy(WnbaHomes(games), WnbaTeamId);
    DedupeDistinct(WnbaHomes(games), WnbaTeamId);
    FilterKeepsDistinct(d, IsRealTeam, WnbaTeamId);
  }

  lemma WnbaTeamsCover(games: seq<WnbaGameApi>)
    ensures forall i :: 0 <= i < |games| && games[i].homeTeam.teamId > 0 ==>
      exists t :: t in WnbaTeams(games) && t.teamId == games[i].homeTeam.teamId
  {
    var homes := WnbaHomes(games);
    var d := DedupeBy(homes, WnbaTeamId);
    forall i | 0 <= i < |games| && games[i].homeTeam.teamId > 0
      ensures exists t :: t in WnbaTeams(games) && t.teamId == games[i].homeTeam.teamId
    {
      assert homes[i] in homes;
      assert WnbaTeamId(homes[i]) in KeySet(homes, WnbaTeamId);
      var t :| t in d && WnbaTeamId(t) == WnbaTeamId(homes[i]);
      assert t in WnbaTeams(games);
    }
  }

  // ---- MLS ----

  /** An MLS team as the feed gives it; a missing colour is "". */
  datatype MlsTeamApi = MlsTeamApi(
    id: int,
    abbreviation: string,
    displayName: string,
    shortDisplayName: string,
    color: string,
    alternateColor: string)

  datatype MlsCompetitor = MlsCompetitor(homeAway: string, team: MlsTeamApi)

  /** A competition: its competitors and, when given, its broadcasts, each
      a list of network names. */
  datatype MlsCompetition = MlsCompetition(competitors: seq<MlsCompetitor>, broadcasts: Option<seq<seq<string>>>)

  datatype MlsEventApi = MlsEventApi(id: string, date: Option<Stamp>, competitions: seq<MlsCompetition>)

  /** A row of the MLS colour table; a missing colour is "". */
  datatype MlsColorEntry = MlsColorEntry(abbreviation: string, primaryColor: string, secondaryColor: string)

  function MlsTeamToTeam(colors: seq<MlsColorEntry>, t: MlsTeamApi): (team: Team)
    ensures team.primaryColor != "" && team.secondaryColor != ""
  {
    var row := Find(colors, (c: MlsColorEntry) => c.abbreviation == t.abbreviation);
    Team(t.id, t.shortDisplayName, t.displayName, t.abbreviation,
         OrElse(OrElse(if row.Some? then row.value.primaryColor else "", t.color), "000000"),
         OrElse(OrElse(if row.Some? then row.value.secondaryColor else "", t.alternateColor), "ffffff"))
  }

  /** The colour falls back from the table to the feed's own colour to a
      fixed default. */
  lemma MlsColorFallback(colors: seq<MlsColorEntry>, t: MlsTeamApi)
    requires forall c :: c in colors ==> c.abbreviation != t.abbreviation
    ensures MlsTeamToTeam(colors, t).primaryColor == (if t.color != "" then t.color else "000000")
    ensures MlsTeamToTeam(colors, t).secondaryColor == (if t.alternateColor != "" then t.alternateColor else "ffffff")
  {
  }

  /** `flatMap` of the name lists. */
  function Flatten(lists: seq<seq<string>>): (r: seq<string>)
    ensures forall x :: x in r <==> exists l :: l in lists && x in l
  {
    if lists == [] then []
    else
      assert forall l :: l in lists ==> l == lists[0] || l in lists[1..];
      lists[0] + Flatten(lists[1..])
  }

  function MlsGameToGame(colors: seq<MlsColorEntry>, e: MlsEventApi): Result<Game, string>
  {
    if |e.competitions| == 0 then Err("No competition found for event " + e.id)
    else
      var c := e.competitions[0];
      var home := Find(c.competitors, (x: MlsCompetitor) => x.homeAway == "home");
      var away := Find(c.competitors, (x: MlsCompetitor) => x.homeAway == "away");
      if home.None? || away.None? then Err("Missing home or away competitor for event " + e.id)
      else
        var names := Join(Flatten(if c.broadcasts.Some? then c.broadcasts.value else []), ", ");
        Ok(Game(e.id, e.date, Some(MlsTeamToTeam(colors, home.value.team)), Some(MlsTeamToTeam(colors, away.value.team)),
                false, if names != "" then Some(names) else None))
  }

  /** An MLS event converts exactly when it has a competition with a home
      and an away competitor; the teams are those competitors'; the
      broadcast is missing exactly when the names join to nothing. */
  lemma MlsGameSpec(colors: seq<MlsColorEntry>, e: MlsEventApi)
    ensures var r := MlsGameToGame(colors, e);
      && (r.Ok? <==> (|e.competitions| > 0
            && (exists x :: x in e.competitions[0].competitors && x.homeAway == "home")
            && (exists x :: x in e.competitions[0].competitors && x.homeAway == "away")))
      && (|e.competitions| == 0 ==> r == Err("No competition found for event " + e.id))
      && (r.Ok? ==>
            && r.value.id == e.id && r.value.time == e.date && !r.value.startTimeTbd
            && (exists x :: x in e.competitions[0].competitors && x.homeAway == "home"
                  && r.value.homeTeam == Some(MlsTeamToTeam(colors, x.team)))
            && (exists x :: x in e.competitions[0].competitors && x.homeAway == "away"
                  && r.value.awayTeam == Some(MlsTeamToTeam(colors, x.team)))
            && var lists := if e.competitions[0].broadcasts.Some? then e.competitions[0].broadcasts.value else [];
               (r.value.broadcast.None? <==>
                  Flatten(lists) == [] || (|Flatten(lists)| == 1 && Flatten(lists)[0] == "")))
  {
    if |e.competitions| > 0 {
      var c := e.competitions[0];
      var lists := if c.broadcasts.Some? then c.broadcasts.value else [];
      JoinEmpty(Flatten(lists), ", ");
    }
  }
}
