/** "You might like": the games of a league worth suggesting next to the one
    on screen — complete, not over, starting within a week — games under
    way first, then by start time, at most `limit` of them. */
module SuggestedGames {
  import opened Options
  import opened Strings
  import opened Sequences
  import opened Calendar
  import opened Domain

  const DEFAULT_LIMIT: int := 3

  /** `GAME_DURATION_HOURS[LEAGUE] || 3`: the table lists NFL, NBA and MLB at
      three hours and every other league falls back to three hours. */
  function GameDurationHours(league: string): (h: int)
    ensures h == 3
  {
    var L := ToUpper(league);
    if L == "NFL" || L == "NBA" || L == "MLB" then 3 else 3
  }

  /** `excludeTeamId` is a number or a string; under `===` a string never
      equals a numeric team id. */
  datatype TeamRef = TeamNumber(n: int) | TeamText(s: string)

  /** `excludeTeamId` is given, truthy and equal to `id`. */
  predicate ExcludesTeam(excludeTeamId: Option<TeamRef>, id: int) {
    excludeTeamId.Some? && excludeTeamId.value.TeamNumber?
    && excludeTeamId.value.n != 0 && excludeTeamId.value.n == id
  }

  function Start(g: Game): int {
    if g.time.Some? then g.time.value.ms else 0
  }

  function End(g: Game, league: string): int {
    Start(g) + GameDurationHours(league) * MS_PER_HOUR
  }

  /** The filter of `getSuggestedGames`; the check "fewer than 7 days until
      the game" is on whole milliseconds. */
  predicate Suggestible(g: Game, league: string, now: int, excludeGameId: Option<string>, excludeTeamId: Option<TeamRef>) {
    && !(excludeGameId.Some? && excludeGameId.value != "" && g.id == excludeGameId.value)
    && g.time.Some? && g.homeTeam.Some? && g.awayTeam.Some?
    && !ExcludesTeam(excludeTeamId, g.homeTeam.value.id)
    && !ExcludesTeam(excludeTeamId, g.awayTeam.value.id)
    && !(now > End(g, league))
    && Start(g) - now < 7 * MS_PER_DAY
  }

  predicate InProgress(g: Game, league: string, now: int) {
    Start(g) <= now <= End(g, league)
  }

  /** The comparator: games under way before the others, then by start. */
  predicate ComesNoLater(a: Game, b: Game, league: string, now: int) {
    if InProgress(a, league, now) && !InProgress(b, league, now) then true
    else if !InProgress(a, league, now) && InProgress(b, league, now) then false
    else Start(a) <= Start(b)
  }

  function SuggestionOrder(league: string, now: int): (Game, Game) -> bool {
    (a: Game, b: Game) => ComesNoLater(a, b, league, now)
  }

  lemma SuggestionOrderIsPreorder(league: string, now: int)
    ensures TotalPreorder(SuggestionOrder(league, now))
  {
  }

  /** `array.slice(0, end)` for an integer `end`: a negative `end` counts
      from the back. */
  function SliceTo<T>(s: seq<T>, end: int): (r: seq<T>)
    ensures end >= 0 ==> |r| == if end < |s| then end else |s|
    ensures end < 0 ==> |r| == if |s| + end > 0 then |s| + end else 0
    ensures r == s[..|r|]
  {
    if end < 0 then (if |s| + end > 0 then s[..|s| + end] else [])
    else if end < |s| then s[..end] else s
  }

  function SuggestibleIn(league: string, now: int, excludeGameId: Option<string>, excludeTeamId: Option<TeamRef>): Game -> bool {
    (g: Game) => Suggestible(g, league, now, excludeGameId, excludeTeamId)
  }

  /** `getSuggestedGames` over the league's game list `allGames`. */
  function GetSuggestedGames(league: string, allGames: seq<Game>, now: int,
                             excludeGameId: Option<string>, excludeTeamId: Option<TeamRef>, limit: int): seq<Game>
  {
    var candidates := Filter(allGames, SuggestibleIn(league, now, excludeGameId, excludeTeamId));
    SliceTo(SortWith(candidates, SuggestionOrder(league, now)), limit)
  }

  /** What the suggestions promise: each is a game of the list that passes
      the filter; there are at most `limit` of them and fewer only when
      fewer games qualify; they come in the comparator's order; and no
      qualifying game left out ranks ahead of one shown. */
  lemma SuggestedGamesSpec(league: string, allGames: seq<Game>, now: int,
                           excludeGameId: Option<string>, excludeTeamId: Option<TeamRef>, limit: int)
    ensures var r := GetSuggestedGames(league, allGames, now, excludeGameId, excludeTeamId, limit);
      var candidates := Filter(allGames, SuggestibleIn(league, now, excludeGameId, excludeTeamId));
      && (forall g :: g in r ==> g in allGames && Suggestible(g, league, now, excludeGameId, excludeTeamId))
      && (limit >= 0 ==> |r| == (if limit < |candidates| then limit else |candidates|))
      && (limit < 0 ==> |r| == (if |candidates| + limit > 0 then |candidates| + limit else 0))
      && multiset(r) <= multiset(candidates)
      && Sorted(r, SuggestionOrder(league, now))
      && (forall x, y :: x in r && y in multiset(candidates) - multiset(r) ==> ComesNoLater(x, y, league, now))
  {
    var p := SuggestibleIn(league, now, excludeGameId, excludeTeamId);
    var le := SuggestionOrder(league, now);
    var candidates := Filter(allGames, p);
    var r := SliceTo(SortWith(candidates, le), limit);
    assert r == GetSuggestedGames(league, allGames, now, excludeGameId, excludeTeamId, limit);
    SuggestionOrderIsPreorder(league, now);
    SortedSlice(candidates, le, limit);
    SuggestionsQualify(candidates, r, allGames, p);
    forall x, y | x in r && y in multiset(candidates) - multiset(r)
      ensures ComesNoLater(x, y, league, now)
    {
      assert le(x, y);
    }
  }

  /** The first `limit` of a sorted copy (as `slice` counts them): drawn
      from the list, in order, and ranking no later than anything left out. */
  lemma SortedSlice<T(!new)>(candidates: seq<T>, le: (T, T) -> bool, limit: int)
    requires TotalPreorder(le)
    ensures var r := SliceTo(SortWith(candidates, le), limit);
      && (limit >= 0 ==> |r| == (if limit < |candidates| then limit else |candidates|))
      && (limit < 0 ==> |r| == (if |candidates| + limit > 0 then |candidates| + limit else 0))
      && multiset(r) <= multiset(candidates)
      && Sorted(r, le)
      && (forall x, y :: x in r && y in multiset(candidates) - multiset(r) ==> le(x, y))
  {
    var sorted := SortWith(candidates, le);
    var r := SliceTo(sorted, limit);
    SortSorted(candidates, le);
    SortedPrefix(sorted, |r|, le);
  }

  /** Called without a limit, the list holds three games, or every
      qualifying game when fewer than three qualify. */
  lemma DefaultLimit(league: string, allGames: seq<Game>, now: int,
                     excludeGameId: Option<string>, excludeTeamId: Option<TeamRef>)
    ensures var r := GetSuggestedGames(league, allGames, now, excludeGameId, excludeTeamId, DEFAULT_LIMIT);
      var candidates := Filter(allGames, SuggestibleIn(league, now, excludeGameId, excludeTeamId));
      |r| == (if |candidates| < 3 then |candidates| else 3)
  {
    SuggestedGamesSpec(league, allGames, now, excludeGameId, excludeTeamId, DEFAULT_LIMIT);
  }

  /** Whatever is drawn from the filtered list passes the filter. */
  lemma SuggestionsQualify(candidates: seq<Game>, r: seq<Game>, allGames: seq<Game>, p: Game -> bool)
    requires candidates == Filter(allGames, p)
    requires multiset(r) <= multiset(candidates)
    ensures forall g :: g in r ==> g in allGames && p(g)
  {
    forall g | g in r ensures g in allGames && p(g) {
      assert g in multiset(candidates);
    }
  }

  /** Among games that pass the filter, "under way first, then by start" is
      simply "by start": a game under way started no later than now, and a
      game not under way and not over starts after now. */
  lemma InProgressFirstIsStartOrder(a: Game, b: Game, league: string, now: int,
                                    excludeGameId: Option<string>, excludeTeamId: Option<TeamRef>)
    requires Suggestible(a, league, now, excludeGameId, excludeTeamId)
    requires Suggestible(b, league, now, excludeGameId, excludeTeamId)
    ensures ComesNoLater(a, b, league, now) <==> Start(a) <= Start(b)
  {
  }

  /** The excluded game and, when a truthy numeric team id is given, every
      game of that team stay out. */
  lemma ExclusionsHold(league: string, allGames: seq<Game>, now: int,
                       excludeGameId: Option<string>, excludeTeamId: Option<TeamRef>, limit: int)
    ensures forall g :: g in GetSuggestedGames(league, allGames, now, excludeGameId, excludeTeamId, limit) ==>
      && g.time.Some? && g.homeTeam.Some? && g.awayTeam.Some?
      && (excludeGameId.Some? && excludeGameId.value != "" ==> g.id != excludeGameId.value)
      && (excludeTeamId.Some? && excludeTeamId.value.TeamNumber? && excludeTeamId.value.n != 0 ==>
            g.homeTeam.value.id != excludeTeamId.value.n && g.awayTeam.value.id != excludeTeamId.value.n)
      && now <= Start(g) + 3 * MS_PER_HOUR && Start(g) - now < 7 * MS_PER_DAY
  {
    SuggestedGamesSpec(league, allGames, now, excludeGameId, excludeTeamId, limit);
  }
}
