# Team Countdown, modelled in Dafny

Team Countdown is a web app that counts down to the next game of a
professional sports team (NFL, NBA, MLB, NHL, WNBA, MLS, CPL). This project
models the app's server and page logic in Dafny and proves what it promises:

- the two read-through caches in front of slow upstream services: ticket
  links found through an affiliate product feed (seven days, keyed by team
  slug and game day) and AI-written game previews (24 hours, keyed by game
  id);
- the choice of a ticket link among the feed's products;
- the countdown texts, the status line and the "You might like" suggestions;
- the attribution microsurvey's session counting and show/no-show gate;
- the rule-based season start dates and the schedule-based answer;
- the game slug, page metadata, schema.org records and affiliate links;
- the team-page loader;
- the NHL, WNBA and MLS feed conversions and the nightly NHL schedule job.

Time is integer milliseconds since 1970-01-01 UTC. A calendar day is a day
number and its weekday is `(day + 4) % 7`, with 0 for Sunday. The server's
local time zone is taken to be UTC. The clock, the random purge coin,
environment variables, browser storage, upstream replies and file contents
are parameters.

Files:

- `common.dfy`: `Options`, `Strings`, `Sequences` and `Domain` (team, game).
- `calendar.dfy`: the civil calendar.
- `cache_store.dfy`: the cache protocol and the `Store` class.
- `ticket_links.dfy`, `game_previews.dfy`: the two caches and their callers.
- `countdown_text.dfy`, `suggested_games.dfy`, `microsurvey.dfy`: page logic.
- `season_start.dfy`, `game_slug.dfy`, `meta.dfy`, `schema.dfy`,
  `affiliate_links.dfy`: date rules and string builders.
- `team_and_games.dfy`, `game_mappers.dfy`, `nhl_schedule.dfy`: data loading.

The model keeps the code's behaviour where it is surprising:

- The organisation logo is "baseball" for NHL, WNBA, MLS and CPL.
- `getNflSeasonStartDate` decides its roll-over on the Thursday's midnight,
  although its comment promises the kickoff time (see Findings).
- A stored session count that is not a number stays `NaN` and does not stop
  the microsurvey, because `NaN < 2` is false.
- The page title keeps an opponent with an empty name as empty, where the
  game preview says "TBD".
- The status line still says "Game in progress!" at exactly three hours
  after the start, when the mini countdown already says "Completed".

## Model

| member | source | states |
|---|---|---|
| CacheStore.PurgeExpiredEntries | app/lib/cj-service.ts:75-85 | the pruned map keeps exactly the entries whose stamp parses and whose age is at most the TTL, each unchanged (the same loop as app/lib/gemini-service.ts:48-58) |
| CacheStore.Lookup | app/lib/cj-service.ts:87-94 | a hit exactly when the key is present, the stamp parses and `now - cachedAt <= ttl`; a hit returns the stored value |
| CacheStore.WrittenThenRead | app/lib/cj-service.ts:96-107 | a value just written reads back at once, with or without the purge; other keys are untouched without a purge and kept exactly when fresh with one |
| CacheStore.TtlBoundary | app/lib/cj-service.ts:30 | an entry written at `t` is served up to and including `t + ttl` and is a miss from `t + ttl + 1` |
| CacheStore.Store.Read | app/lib/cj-service.ts:53-61 | a missing or unreadable cache file reads as the empty map |
| CacheStore.Store.Set | app/lib/cj-service.ts:96-107 | on a successful write the file holds the old contents with the key stamped `now`, purged when the coin says so; a failed write leaves the file as it was |
| CacheStore.Store.constructor | app/lib/gemini-service.ts:8-14 | a cache with the given TTL over the given file contents |
| TicketLinks.LeagueCategory | app/lib/cj-service.ts:36-43 | a category exists exactly for NFL, MLB, NBA, NHL, WNBA and MLS, and is the league code itself |
| TicketLinks.SearchTicketNetworkEvents | app/lib/cj-service.ts:119-194 | missing credentials or a failed request give no products; otherwise the result is exactly the reply's listable products, each made into a product, in reply order (`Listed`): every listable product is kept, every result comes from one, and each has a bar character in its performers and, for a known league, the league in its category |
| TicketLinks.FilterMapIsListed | app/lib/cj-service.ts:175-194 | filtering the reply and then mapping it gives the same products, in the same order, as taking its listable products one at a time |
| TicketLinks.EarliestMatch | app/lib/cj-service.ts:208-212 | the first match in the date-sorted list exists exactly when some product matches, and starts no later than any other match |
| TicketLinks.FindGameTicketLinkChoice | app/lib/cj-service.ts:201-227 | nothing from no products; the earliest product on the game's day when there is one; otherwise the earliest product still to come, and nothing exactly when none is |
| TicketLinks.CacheKeySplits | app/lib/cj-service.ts:45-51 | the key splits at its bar back into the lower-cased, hyphenated team slug and the first ten characters of the game date |
| TicketLinks.GetAffiliateLinks | app/lib/cj-service.ts:229-262 | a non-empty cached link of a timed game, read at the first clock reading, is returned without searching and leaves the file alone; otherwise the search runs and the choice uses the second reading; no link writes nothing, and a found link of a timed game is written under its key, stamped with the third reading |
| TicketLinks.RepeatIsHit | app/lib/cj-service.ts:96-107 | a link written at `now` is a hit for the same link anywhere in the following seven days |
| GamePreviews.PromptShape | app/lib/gemini-service.ts:86-110 | the matchup opens with the team's name and " vs ", the opponent is never blank ("TBD" when missing) and the date is "Date TBD" exactly when the game has no time |
| GamePreviews.GenerateGamePreview | app/lib/gemini-service.ts:112-122 | a preview exactly when the model answered with text, and that text; a thrown error or a missing text give no preview |
| GamePreviews.GetCachedGamePreview | app/lib/gemini-service.ts:125-138 | a cached entry at the read time, a cached "no preview" included, is returned without generating and leaves the file alone; on a miss the generated outcome, "no preview" included, is written stamped with the later write time and returned |
| GamePreviews.RepeatIsHit | app/lib/gemini-service.ts:60-79 | an outcome written at `now`, "no preview" included, is a hit holding that outcome for 24 hours; a stored "no preview" is not a miss |
| CountdownText.DecomposeExact | app/components/mini-countdown.tsx:31-34 | days·1440 + hours·60 + minutes is the whole number of minutes, with hours below 24 and minutes below 60 |
| CountdownText.TimeUntilRoundTrip | app/components/mini-countdown.tsx:36-42 | reading the three-tier text "in Xd Yh Zm" / "in Yh Zm" / "in Zm" back gives the number of minutes it was made from |
| CountdownText.CountdownLabelCases | app/components/mini-countdown.tsx:16-42 | before the start the text reads back as the whole minutes left ("in 0m" in the last minute); the started label for exactly the first three hours; "Completed" after |
| CountdownText.YouMightLike | app/components/you-might-like.tsx:57-95 | nothing for an empty list; otherwise one entry per game, in order, with links to both teams and the "In progress" countdown of app/components/you-might-like.tsx:19-45 |
| CountdownText.StatusAgreesWithMiniCountdown | app/components/countdown.tsx:105-127 | for a timed game the status line is the countdown with its "till" suffix before the start, "Game in progress!" up to and including three hours in, "Game completed" after; it agrees with the mini countdown except at the three-hour instant |
| CountdownText.LogoPathShape | app/components/countdown.tsx:154-159 | the logo path is /logos/{abbr}.svg for an NFL team, /logos/{league}/{abbr}.svg for another league's team and /logos/{league}.svg without an abbreviation, all lower-cased |
| CountdownText.OpposingTeamIsOtherSide | app/components/countdown.tsx:175-178 | the opposing team is the side that is not the viewed team, the same side the slug, the meta title and the preview use |
| CountdownText.MatchupLink | app/components/countdown.tsx:180-191 | a matchup line exactly when the game has both teams; it links to the opposing team's page under the lower-cased league |
| Domain.OtherSide | app/lib/gemini-service.ts:86-89 | the other side is the away team when the home team has the viewed team's abbreviation, else the home team |
| SuggestedGames.GameDurationHours | app/lib/getSuggestedGames.ts:6-20 | every league's games, unknown leagues included, last three hours |
| SuggestedGames.SliceTo | app/lib/getSuggestedGames.ts:71 | `slice(0, end)` keeps the first `end` elements, counting a negative `end` from the back |
| SuggestedGames.SuggestedGamesSpec | app/lib/getSuggestedGames.ts:26-71 | each suggestion is a game of the list that passes the filter; there are `limit` of them unless fewer qualify; they are sorted by the comparator and no qualifying game left out ranks ahead of one shown |
| SuggestedGames.InProgressFirstIsStartOrder | app/lib/getSuggestedGames.ts:55-70 | among qualifying games, "under way first, then by start" orders exactly as by start time |
| SuggestedGames.DefaultLimit | app/lib/getSuggestedGames.ts:12-17 | without a limit there are three suggestions, or every qualifying game when fewer qualify |
| SuggestedGames.ExclusionsHold | app/lib/getSuggestedGames.ts:29-53 | no suggestion is the excluded game or, for a truthy numeric team id, that team's; each has a time and both teams, is not over and starts within seven days |
| Microsurvey.ReadInt | app/components/microsurvey.tsx:35-38 | a missing key reads as 0 (`|| '0'`); a stored text reads as its `parseInt` value or `NaN` |
| Microsurvey.TrackSession | app/components/microsurvey.tsx:35-49 | the last-session time becomes `now` and no other key but the session count changes |
| Microsurvey.SessionCounting | app/components/microsurvey.tsx:42-48 | the session count goes up by one exactly when the last session lies more than 30 minutes back |
| Microsurvey.SameSession | app/components/microsurvey.tsx:13-42 | two visits at most 30 minutes apart count as one session |
| Microsurvey.FirstVisitNeverShows | app/components/microsurvey.tsx:57-60 | a first visit never shows the survey |
| Microsurvey.SecondSessionShows | app/components/microsurvey.tsx:57-128 | from fresh storage, a second visit in a new session passes every gate |
| Microsurvey.AnswerSnoozes | app/components/microsurvey.tsx:62-73 | an answer keeps the survey away for 90 days |
| Microsurvey.DismissSnoozes | app/components/microsurvey.tsx:75-86 | a dismissal keeps the survey away for seven days |
| Microsurvey.BannerTakesPriority | app/components/microsurvey.tsx:88-126 | while the install banner would show, the survey does not |
| Microsurvey.UnreadableOrOldRecordsIgnored | app/components/microsurvey.tsx:63-86 | a record whose parse or destructuring throws, or whose timestamp converts to `NaN`, does not snooze the survey; a snooze ends when its window is over |
| Microsurvey.WrittenRecordsSnooze | app/components/microsurvey.tsx:62-86 | a record the survey wrote at `t` snoozes exactly while `now - t` is under the window; a number stored under the key never snoozes |
| Microsurvey.BannerDismissalReadings | app/components/microsurvey.tsx:103-121 | with a page view counted and no installed app, a dismissal record that throws shows the banner, a `NaN` timestamp hides it, and a numeric one (`null` as 0) shows it once 7 days have passed |
| Microsurvey.NaNCountPassesGate | app/components/microsurvey.tsx:42-60 | a session count that is not a number stays `NaN` through the bookkeeping, and the two-session gate then lets the survey through |
| Microsurvey.Survey.constructor | app/components/microsurvey.tsx:25-29 | the dialog starts closed, with no other-input, no text and no response |
| Microsurvey.Survey.Mount | app/components/microsurvey.tsx:31-139 | the storage is the session bookkeeping's result and the dialog is scheduled exactly when every gate passes |
| Microsurvey.Survey.TimerFires | app/components/microsurvey.tsx:129-132 | the scheduled dialog opens |
| Microsurvey.Survey.Answer | app/components/microsurvey.tsx:141-149 | the response time is stored, the response is remembered and the dialog closes |
| Microsurvey.Survey.ClickOther | app/components/microsurvey.tsx:151-153 | the free-text input appears |
| Microsurvey.Survey.EditOther | app/components/microsurvey.tsx:214 | the free text becomes the edited text |
| Microsurvey.Survey.SubmitOther | app/components/microsurvey.tsx:155-168 | text that is not only whitespace records a response and closes the dialog; otherwise nothing changes |
| Strings.TrimEmpty | app/components/microsurvey.tsx:156 | `trim()` leaves an empty string exactly when every character is whitespace, so the submit guard is the blank test |
| Microsurvey.Survey.Dismiss | app/components/microsurvey.tsx:170-177 | the dismissal time is stored and the dialog closes |
| Microsurvey.Survey.OpenChange | app/components/microsurvey.tsx:180-186 | a close without a response counts as a dismissal; anything else changes nothing |
| SeasonStart.NthWeekdayOfMonth | app/lib/getSeasonStartDate.ts:26-38 | the n-th `wd` of the month falls on `wd`, in days (n−1)·7+1 to n·7 of the month |
| SeasonStart.NthWeekdayInMonth | app/lib/getSeasonStartDate.ts:26-38 | up to the fourth, the n-th weekday lies inside its month |
| SeasonStart.LastWeekday | app/lib/getSeasonStartDate.ts:43-59 | the last `wd` of the month lies in the month and no later day of the month is a `wd` |
| SeasonStart.LastWeekdayOfMonth | app/lib/getSeasonStartDate.ts:43-59 | the walk back from the month's last day stops at the last `wd` of the month |
| SeasonStart.NextThursdayStepAgrees | app/lib/getSeasonStartDate.ts:96-100 | the next-Thursday offset steps to the next Thursday, one to seven days on |
| SeasonStart.LaborDay | app/lib/getSeasonStartDate.ts:81-84 | Labor Day is a Monday within September 1 to 7 |
| SeasonStart.SeasonRules | app/lib/getSeasonStartDate.ts:74-143 | each of the seven leagues opens on its stated weekday, week and month at its stated UTC time; no other league has a rule |
| SeasonStart.RuleWithinYear | app/lib/getSeasonStartDate.ts:74-139 | every rule day lies between February 1 and October 31 |
| SeasonStart.SeasonStartInYear | app/lib/getSeasonStartDate.ts:74-143 | every calculated date falls inside its year, and a league without a rule gets January 1 of the next year |
| SeasonStart.FutureGames | app/lib/getSeasonStartDate.ts:166-167 | the future games are exactly the timed games after `now` |
| SeasonStart.EarliestFutureStart | app/lib/getSeasonStartDate.ts:166-179 | the head of the sorted future games is a future game no later than any other |
| SeasonStart.SeasonStartIsAhead | app/lib/getSeasonStartDate.ts:158-195 | the date given is always ahead of `now`, and the season is under way exactly when the schedule has games on both sides of `now` |
| SeasonStart.NflRollsOverEarly | app/lib/getNflSeasonStartDate.ts:27-39 | as written, on the opening Thursday before kickoff the answer is already next year's kickoff |
| SeasonStart.NflSeasonStartIsNextKickoff | app/lib/getNflSeasonStartDate.ts:15-41 | the corrected date is ahead of `now`, is this year's kickoff while that is ahead, and agrees with the generic NFL rule |
| GameSlug.MonthOfSlugInverts | app/lib/getGameSlug.ts:6 | the lower-case short month name reads back as its month and holds no '-' |
| GameSlug.GameSlugRoundTrip | app/lib/getGameSlug.ts:3-14 | no slug without a time; otherwise the slug splits into month, day, year and the lower-cased opponent, and reads back as them |
| GameSlug.SlugOpponentIsOtherSide | app/lib/getGameSlug.ts:9-12 | the slug names the side that is not the viewed team |
| Meta.MetaSpec | app/lib/generateMeta.ts:10-57 | the Open Graph title, description and URL repeat the page's own; the canonical link is the URL; every title ends in " - {LEAGUE} Countdown"; a game page's URL is its team page's plus "/{slug}" |
| Meta.MetaOpponentAgreesWithPreview | app/lib/generateMeta.ts:18-21 | the title names the same opponent as the preview prompt, except that a side with an empty name shows as empty here and as TBD there |
| Meta.MetaDateFragment | app/lib/generateMeta.ts:23-33 | a game page's title carries " - {date}" exactly when the game has a time |
| Schema.UnknownLeagues | app/lib/schema-helpers.ts:3-36 | a league other than NFL, NBA and MLB has sport "Sports", its own code as name and no official site |
| Schema.KnownLeaguesDistinct | app/lib/schema-helpers.ts:3-36 | NFL, NBA and MLB each have their own sport, name and site |
| Schema.ExtractCitySpec | app/lib/schema-helpers.ts:38-46 | the city, one space and the last word make the name again; a one-word name has no city |
| Schema.TeamLogoPath | app/lib/schema-helpers.ts:62-64 | the team logo URL has a league folder for every league but the NFL |
| Schema.SportsEventSchemaSpec | app/lib/schema-helpers.ts:73-124 | an event record exactly when the game has both teams and a time; it is placed in the home team's city and names home before away |
| Schema.OrganizationLogos | app/lib/schema-helpers.ts:128-133 | football for the NFL, basketball for the NBA, baseball for every other league |
| Schema.SiteSchema | app/lib/schema-helpers.ts:147-170 | the site record names the three original leagues |
| AffiliateLinks.ConfiguredId | app/lib/affiliate-links.ts:28-36 | an unset or empty variable is the placeholder; any other value is kept |
| AffiliateLinks.FormEncode | app/lib/affiliate-links.ts:46-51 | the encoded value holds only unreserved characters, '+' and percent escapes |
| AffiliateLinks.FormRoundTrip | app/lib/affiliate-links.ts:46-51 | decoding the encoding of an ASCII value gives the value back |
| AffiliateLinks.EncodedIsQuerySafe | app/lib/affiliate-links.ts:46-51 | an encoded value holds no '&', '=', '#', '?', '/' or space |
| AffiliateLinks.LinkParts | app/lib/affiliate-links.ts:51-52 | a link splits at '?' into its address alone, or into its address and `name=value` exactly when the id is configured |
| AffiliateLinks.TicketLinkShape | app/lib/affiliate-links.ts:41-53 | the ticket link is the team slug's ticket search, with "affid" exactly when configured; the slug is the one the ticket cache keys on |
| AffiliateLinks.MerchPathSegments | app/lib/affiliate-links.ts:66-79 | the merch address is the store's page for the lower-cased league and abbreviation |
| AffiliateLinks.MerchLinkShape | app/lib/affiliate-links.ts:72-78 | the merch link carries "_ref" exactly when configured |
| AffiliateLinks.GetAffiliateLinks | app/lib/affiliate-links.ts:81-107 | outside production every link is present; in production a link is present exactly when its id is configured, and there are no links exactly when none is |
| AffiliateLinks.UnconfiguredLinksHaveNoQuery | app/lib/affiliate-links.ts:55-79 | without a configured id the betting link is the bare sportsbook address and the merch link has no query |
| TeamAndGames.LeagueOf | app/lib/getTeamAndGames.ts:11 | only an unset league variable falls back to NFL |
| TeamAndGames.LexAntisymmetric | app/lib/getTeamAndGames.ts:21 | the name order holds both ways only for equal names |
| TeamAndGames.ByFullNameIsPreorder | app/lib/getTeamAndGames.ts:21 | ordering by full name is total and transitive |
| TeamAndGames.GetTeamAndGamesSpec | app/lib/getTeamAndGames.ts:10-43 | 404 exactly when no team of the league has the abbreviation, compared without case; otherwise the league's teams by name, the first match, and exactly the league's games it plays in |
| TeamAndGames.NflTeamsUnique | app/lib/getTeamAndGames.ts:17-20 | the football teams have distinct ids and every home team's id is listed |
| TeamAndGames.NbaGamesNeedHomeTeam | app/lib/getTeamAndGames.ts:35-38 | a basketball game is listed exactly when an entry with a positive home team id carries it |
| GameMappers.TeamColorsSpec | app/lib/nhlGameToGame.ts:5-20 | both colours are set; they are the first table row's when its colours are non-empty, and "#000"/"#fff" without a row |
| GameMappers.BroadcastLineSpec | app/lib/nhlGameToGame.ts:30-49 | the line lists every network once, national ones first, then the viewed side's own; it is missing exactly when there is no network |
| GameMappers.Networks | app/lib/nhlGameToGame.ts:36-38 | a market's networks are exactly those of its broadcasts |
| GameMappers.NhlBroadcastMissing | app/lib/nhlGameToGame.ts:35-49 | the NHL broadcast is missing exactly when no broadcast is national, home or away |
| GameMappers.NhlGameSpec | app/lib/nhlGameToGame.ts:51-58 | an NHL game has both teams and a fixed time, and its id reads back as the feed's id |
| GameMappers.NhlFullName | app/lib/nhlGameToGame.ts:16 | the full name is the place, one space and the common name |
| GameMappers.Displays | app/lib/wnbaGameToGame.ts:52-54 | the display names are those of the list that are not empty |
| GameMappers.WnbaGameSpec | app/lib/wnbaGameToGame.ts:47-75 | a WNBA broadcast line never lists an empty name and is missing exactly when every list is missing or holds only empty names |
| GameMappers.WnbaTeamsSpec | app/lib/wnbaGameToGame.ts:11-14 | every listed team hosts a game, ids are distinct and positive, and every positive home id is listed |
| GameMappers.MlsTeamToTeam | app/lib/mlsGameToGame.ts:4-26 | both colours of an MLS team are always set |
| GameMappers.MlsColorFallback | app/lib/mlsGameToGame.ts:23-24 | without a table row the colours fall back to the feed's own, then to "000000"/"ffffff" |
| GameMappers.MlsGameSpec | app/lib/mlsGameToGame.ts:33-58 | an event converts exactly when it has a competition with a home and an away competitor, with the stated errors otherwise; the broadcast is missing exactly when the names join to nothing |
| NhlSchedule.FetchAndMerge | cron/getNhlSchedule.ts:72-97 | batches of one or two clubs cover the list in order, and the merged games are the replies' games with later copies of an id dropped |
| NhlSchedule.MergeReply | cron/getNhlSchedule.ts:84-90 | the id-guarded inner loop appends exactly the first copies of each id |
| NhlSchedule.BatchSchedules | cron/getNhlSchedule.ts:56-81 | one schedule per club in batch order; a failed reply or one without games gives none |
| NhlSchedule.FetchAndSaveNhlSchedule | cron/getNhlSchedule.ts:67-106 | the saved schedule is the merged games without the preseason, sorted by start |
| NhlSchedule.ScheduleSpec | cron/getNhlSchedule.ts:83-106 | the saved schedule has no id twice, only fetched non-preseason games, every first copy that is not preseason, in start-time order |

## Left out

- File I/O: the cache files and the NHL output file are in-memory values. A read that fails is the empty map and a write that fails is a flag.
- Network calls: the ticket feed, the model call, the NHL schedule server and the feeds behind the mappers are replies passed in. `TicketLinks.SearchTicketNetworkEvents` receives the product list the feed returned.
- `Math.random`: the 5% purge is a boolean parameter. Its frequency is statistical.
- CacheStore.Store.Set: one clock reading both stamps the new entry and judges the purge. The source reads the clock twice here (`new Date()` for the stamp, `Date.now()` in the purge). The two readings are a few statements apart, with no await between them.
- Strings.ToLower / Strings.ToUpper: ASCII letters only, one character for one. JavaScript maps all of Unicode (`'É'` to `'é'`), and some characters change length (`'İ'` lower-cases to two). The slugs, cache keys, logo, merch and schema paths, the team lookup and the league upper-casing inherit this restriction.
- Concurrency: concurrent writers can lose each other's updates. Calls are modelled one after another, and the NHL batch's parallel fetches are sequential.
- Date parsing and formatting: `new Date(...)`, `toISOString`, `toLocaleString`, `Intl.DateTimeFormat` and the external `countdown` library. A timestamp is its text and its parsed milliseconds; a formatted date is a function of the calendar date.
- Time zones: local time is UTC. `new Date(y, m, d)` and `getYear` use the server's zone.
- React rendering, hooks, timers, analytics events and `window.matchMedia`: only the computations and storage logic are modelled. `matchMedia` becomes the `standalone` parameter.
- Storage access errors in the microsurvey (private browsing) abort the effect; not modelled.
- Microsurvey.Stored: how a stored text maps to its two readings is not modelled. A stored item is the pair of its `parseInt` reading and its `JSON.parse` reading, with the destructured `timestamp` after JavaScript's ToNumber. The texts the survey writes itself are `NumberText`, `RecordText` and `NAN_TEXT`.
- Microsurvey.Snoozed / Microsurvey.InstallBannerWouldShow: timestamps are whole milliseconds. A timestamp that converts to a fraction or to an infinity is not modelled.
- `GamePreviews.PromptFor`: only the varying parts of the prompt; its fixed instructions are left out.
- CountdownText.CountdownString: the countdown text before the "till" suffix comes from an external library and is a parameter.
- TeamAndGames.LexLe: compares code points; JavaScript's `<` compares UTF-16 code units, which differ only above U+FFFF.
- AffiliateLinks.FormRoundTrip: proved for ASCII values only; other characters are encoded as UTF-8 bytes but their decoding is not modelled.
- NhlSchedule.FetchAndSaveNhlSchedule: the sort is a stable insertion sort, so ties keep merge order. JavaScript's sort is stable too, but this is not stated.
- NHL fetch exceptions (as opposed to non-OK replies) abort the whole job; not modelled.
- Fields the code only copies (locations, titles, colours of the NFL feed) are not modelled.
- The thin NFL, NBA, MLB and CPL mappers, the file loaders, the other cron scripts, routes, scripts and configuration are not part of this model.

## Findings

| source | as written | input that shows it | evidently intended | confidence | as-written member | corrected member |
|---|---|---|---|---|---|---|
| app/lib/getNflSeasonStartDate.ts:30-39 | the roll-over to next year tests the opening Thursday at midnight, before the kickoff time is set at line 39 | 01:00 UTC on Thursday 4 September 2025: kickoff is at 00:15 UTC on 5 September, yet the answer is the 2026 kickoff | roll over only once this year's kickoff is past, as `calculateSeasonStartDate` and `getSeasonStartDate` do | high; not executed | SeasonStart.NflRollsOverEarly | SeasonStart.NflSeasonStartIsNextKickoff |
