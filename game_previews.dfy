/** AI-written game previews: the prompt built for a game, the reading of
    the model's answer, and the read-through cache (24 hours, keyed by game
    id) in front of them. Unlike the ticket cache, a stored "no preview"
    is a hit: absence and a cached null are told apart. */
module GamePreviews {
  import opened Options
  import opened Calendar
  import opened Domain
  import opened CacheStore

  const CACHE_TTL_MS: int := 24 * MS_PER_HOUR

  /** A cache of previews; a stored `None` is a remembered failure. */
  type PreviewCache = Store<Option<string>>

  /** How the model call ended: it threw, or it answered with a text field
      that may be missing. */
  datatype Reply = Threw | Answered(text: Option<string>)

  /** The parts of the prompt that vary from game to game. */
  datatype Prompt = Prompt(league: string, matchup: string, gameDate: string)

  /** `opponentTeam?.fullName || 'TBD'`: the opponent's name, or TBD when
      there is no opponent or its name is empty. */
  function OpponentName(game: Game, team: Team): string {
    var opponent := OtherSide(game, team);
    if opponent.Some? && opponent.value.fullName != "" then opponent.value.fullName else "TBD"
  }

  /** The prompt for `game` as seen by `team`. `localDate` is the calendar
      date of the game time in the server's time zone. */
  function PromptFor(league: string, game: Game, team: Team, localDate: CivilDate): Prompt
    requires ValidDate(localDate)
  {
    Prompt(league,
           team.fullName + " vs " + OpponentName(game, team),
           if game.time.Some? then LongDate(localDate) else "Date TBD")
  }

  /** The matchup always names the team first and never leaves the
      opponent blank; an untimed game is dated "Date TBD". */
  lemma PromptShape(league: string, game: Game, team: Team, localDate: CivilDate)
    requires ValidDate(localDate)
    ensures PromptFor(league, game, team, localDate).matchup[..|team.fullName| + 4] == team.fullName + " vs "
    ensures OpponentName(game, team) != ""
    ensures OtherSide(game, team).None? ==> PromptFor(league, game, team, localDate).matchup == team.fullName + " vs TBD"
    ensures game.time.None? <==> PromptFor(league, game, team, localDate).gameDate == "Date TBD"
  {
    var d := LongDate(localDate);
    var m := localDate.month;
    assert d[..3] == MonthShort(m);
    assert MonthShort(m) != "Dat";
    assert "Date TBD"[..3] == "Dat";
  }

  /** `generateGamePreview` once the call has returned: the text, or `None`
      when the call threw or the answer has no text. */
  function GenerateGamePreview(reply: Reply): (r: Option<string>)
    ensures r.Some? <==> reply.Answered? && reply.text.Some?
    ensures r.Some? ==> r.value == reply.text.value
  {
    if reply.Answered? then reply.text else None
  }

  /** `getCachedGamePreview`. A cached entry, even a cached `None`, is
      returned without calling the model. On a miss the model is called
      (`reply` is its answer to the prompt for this game) and whatever
      came of it, `None` included, is written under the game id. The clock
      is read twice: `readAt` when the cache is consulted, and `writeAt`,
      after the awaited model call, when the entry is stamped and the purge
      runs. */
  method GetCachedGamePreview(store: PreviewCache, league: string, game: Game, team: Team,
                              reply: Reply, readAt: int, writeAt: int, purge: bool, writeOk: bool)
    returns (preview: Option<string>, generated: bool)
    modifies store
    ensures old(store.Get(game.id, readAt)).Some? ==>
      preview == old(store.Get(game.id, readAt)).value && !generated && store.file == old(store.file)
    ensures old(store.Get(game.id, readAt)).None? ==> generated && preview == GenerateGamePreview(reply)
    ensures old(store.Get(game.id, readAt)).None? && writeOk ==>
      store.file == Some(Written(old(store.Read()), game.id, preview, writeAt, purge, store.ttl))
    ensures old(store.Get(game.id, readAt)).None? && !writeOk ==> store.file == old(store.file)
  {
    var cached := store.Get(game.id, readAt);
    if cached.Some? {
      return cached.value, false;
    }
    preview := GenerateGamePreview(reply);
    generated := true;
    store.Set(game.id, preview, writeAt, purge, writeOk);
  }

  /** The outcome of a call that stored its preview is what a call within
      the next 24 hours is served, failures included: a `None` written at
      `now` reads back as a hit holding `None`, not as a miss. */
  lemma RepeatIsHit(cache: map<string, Entry<Option<string>>>, id: string, preview: Option<string>,
                    now: int, later: int, purge: bool)
    requires now <= later <= now + CACHE_TTL_MS
    ensures Lookup(Written(cache, id, preview, now, purge, CACHE_TTL_MS), id, later, CACHE_TTL_MS) == Some(preview)
  {
    WrittenThenRead(cache, id, preview, now, purge, CACHE_TTL_MS);
  }
}
