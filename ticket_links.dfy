/** Ticket links from the TicketNetwork affiliate feed: the product search
    and its filter, the choice of one product for a game, and the
    read-through cache (seven days, keyed by team slug and game day) in
    front of them. */
module TicketLinks {
  import opened Options
  import opened Strings
  import opened Sequences
  import opened Calendar
  import opened Domain
  import opened CacheStore

  const CACHE_TTL_MS: int := 7 * MS_PER_DAY

  /** The four CJ settings read from the environment; an unset one is "". */
  datatype Credentials = Credentials(companyId: string, pid: string, partnerId: string, token: string)

  predicate Configured(c: Credentials) {
    c.companyId != "" && c.pid != "" && c.partnerId != "" && c.token != ""
  }

  /** A product of the feed's result list as it arrives; a field that is
      not a string is `None`. */
  datatype RawProduct = RawProduct(
    id: string,
    title: string,
    clickUrl: Option<string>,
    travelStartDate: Option<Stamp>,
    performers: Option<string>,
    categoryName: Option<string>,
    locationName: Option<string>)

  datatype CJProduct = CJProduct(
    id: string,
    title: string,
    performers: string,
    categoryName: string,
    travelStartDate: Stamp,
    locationName: Option<string>,
    clickUrl: string)

  /** The text a league's events carry in their category name; only the six
      leagues TicketNetwork files under their own code have one. */
  function LeagueCategory(league: string): (r: Option<string>)
    ensures r.Some? <==> league in {"NFL", "MLB", "NBA", "NHL", "WNBA", "MLS"}
    ensures r.Some? ==> r.value == league
  {
    if league in {"NFL", "MLB", "NBA", "NHL", "WNBA", "MLS"} then Some(league) else None
  }

  /** A product is kept when every field the site uses is a string, its
      category names the league (when the league has a category) and it
      names two performers, which season-ticket packages do not. */
  predicate Listable(p: RawProduct, league: string) {
    && p.clickUrl.Some?
    && p.travelStartDate.Some?
    && p.performers.Some?
    && p.categoryName.Some?
    && (LeagueCategory(league).Some? ==> Contains(p.categoryName.value, LeagueCategory(league).value))
    && Contains(p.performers.value, "|")
  }

  function ListableIn(league: string): RawProduct -> bool {
    (p: RawProduct) => Listable(p, league)
  }

  function ToProduct(p: RawProduct, league: string): CJProduct
    requires Listable(p, league)
  {
    CJProduct(p.id, p.title, p.performers.value, p.categoryName.value,
              p.travelStartDate.value, p.locationName, p.clickUrl.value)
  }

  /** The search: no products without all four settings or when the request
      fails (`reply` is `None` for a thrown fetch or a non-OK status);
      otherwise the listable products of the reply, in order. */
  function SearchTicketNetworkEvents(creds: Credentials, reply: Option<seq<RawProduct>>, league: string)
    : (r: seq<CJProduct>)
    ensures !Configured(creds) || reply.None? ==> r == []
    ensures forall q :: q in r ==> '|' in q.performers
    ensures LeagueCategory(league).Some? ==> forall q :: q in r ==> Contains(q.categoryName, league)
    ensures Configured(creds) && reply.Some? ==>
      forall p :: p in reply.value && Listable(p, league) ==> ToProduct(p, league) in r
    ensures forall q :: q in r ==>
      reply.Some? && exists p :: p in reply.value && Listable(p, league) && q == ToProduct(p, league)
    ensures Configured(creds) && reply.Some? ==> r == Listed(reply.value, league)
  {
    if !Configured(creds) || reply.None? then []
    else
      var kept := Filter(reply.value, ListableIn(league));
      KeptAreListable(reply.value, league);
      ProductsShape(kept, league);
      ProductsCover(reply.value, league);
      ProductsSound(reply.value, league);
      FilterMapIsListed(reply.value, league);
      ToProducts(kept, league)
  }

  /** The reply's listable products, each made into a product, in reply
      order: the `filter(...).map(...)` chain written one product at a time. */
  function Listed(raw: seq<RawProduct>, league: string): seq<CJProduct> {
    if raw == [] then []
    else if Listable(raw[0], league) then [ToProduct(raw[0], league)] + Listed(raw[1..], league)
    else Listed(raw[1..], league)
  }

  /** Filtering and then mapping gives the products one at a time, in order. */
  lemma {:induction false} FilterMapIsListed(raw: seq<RawProduct>, league: string)
    requires forall p :: p in Filter(raw, ListableIn(league)) ==> Listable(p, league)
    ensures ToProducts(Filter(raw, ListableIn(league)), league) == Listed(raw, league)
    decreases |raw|
  {
    if raw != [] {
      var rest := Filter(raw[1..], ListableIn(league));
      KeptAreListable(raw[1..], league);
      FilterMapIsListed(raw[1..], league);
      if Listable(raw[0], league) {
        assert ListableIn(league)(raw[0]);
        var kept := [raw[0]] + rest;
        assert Filter(raw, ListableIn(league)) == kept;
        assert kept[1..] == rest;
      } else {
        assert !ListableIn(league)(raw[0]);
      }
    }
  }

  /** Every product made comes from a listable product of the reply. */
  lemma ProductsSound(raw: seq<RawProduct>, league: string)
    requires forall p :: p in Filter(raw, ListableIn(league)) ==> Listable(p, league)
    ensures forall q :: q in ToProducts(Filter(raw, ListableIn(league)), league) ==>
      exists p :: p in raw && Listable(p, league) && q == ToProduct(p, league)
  {
    var kept := Filter(raw, ListableIn(league));
    var r := ToProducts(kept, league);
    forall q | q in r
      ensures exists p :: p in raw && Listable(p, league) && q == ToProduct(p, league)
    {
      var i :| 0 <= i < |r| && r[i] == q;
      assert kept[i] in kept;
    }
  }

  /** `products.map(...)` over products already known to be listable. */
  function ToProducts(kept: seq<RawProduct>, league: string): (r: seq<CJProduct>)
    requires forall p :: p in kept ==> Listable(p, league)
    ensures |r| == |kept|
    ensures forall i :: 0 <= i < |kept| ==> r[i] == ToProduct(kept[i], league)
  {
    if kept == [] then [] else [ToProduct(kept[0], league)] + ToProducts(kept[1..], league)
  }

  lemma KeptAreListable(raw: seq<RawProduct>, league: string)
    ensures forall p :: p in Filter(raw, ListableIn(league)) ==> Listable(p, league)
  {
    forall p | p in Filter(raw, ListableIn(league)) ensures Listable(p, league) {
      assert ListableIn(league)(p);
    }
  }

  /** Every product made names two performers and, where the league has a
      category, a category naming the league. */
  lemma ProductsShape(kept: seq<RawProduct>, league: string)
    requires forall p :: p in kept ==> Listable(p, league)
    ensures forall q :: q in ToProducts(kept, league) ==>
      '|' in q.performers && (LeagueCategory(league).Some? ==> Contains(q.categoryName, league))
  {
    var r := ToProducts(kept, league);
    forall q | q in r
      ensures '|' in q.performers && (LeagueCategory(league).Some? ==> Contains(q.categoryName, league))
    {
      var i :| 0 <= i < |r| && r[i] == q;
      assert kept[i] in kept;
      ContainsChar(kept[i].performers.value, '|');
    }
  }

  /** No listable product of the reply is lost. */
  lemma ProductsCover(raw: seq<RawProduct>, league: string)
    requires forall p :: p in Filter(raw, ListableIn(league)) ==> Listable(p, league)
    ensures forall p :: p in raw && Listable(p, league) ==>
      ToProduct(p, league) in ToProducts(Filter(raw, ListableIn(league)), league)
  {
    var kept := Filter(raw, ListableIn(league));
    forall p | p in raw && Listable(p, league)
      ensures ToProduct(p, league) in ToProducts(kept, league)
    {
      assert ListableIn(league)(p);
      var i :| 0 <= i < |kept| && kept[i] == p;
      assert ToProducts(kept, league)[i] == ToProduct(p, league);
    }
  }

  /** The order `toSorted` puts products in: by start time. */
  function StartsNoLater(a: CJProduct, b: CJProduct): bool {
    a.travelStartDate.ms <= b.travelStartDate.ms
  }

  /** Products whose start date text begins with the day `day`. */
  function OnDay(day: string): CJProduct -> bool {
    (p: CJProduct) => Take(p.travelStartDate.iso, 10) == day
  }

  /** Products starting strictly after `now`. */
  function StartsAfter(now: int): CJProduct -> bool {
    (p: CJProduct) => p.travelStartDate.ms > now
  }

  /** The day part of a game time: its first ten characters (YYYY-MM-DD). */
  function GameDay(gameDate: string): string {
    Take(gameDate, 10)
  }

  /** Picks the product for a game: in start order, the first one on the
      game's day; failing that (or without a game date), the first one
      still to come; `None` when there is neither. */
  function FindGameTicketLink(products: seq<CJProduct>, gameDate: Option<string>, now: int): Option<string> {
    if |products| == 0 then None
    else
      var sorted := SortWith(products, StartsNoLater);
      var dayMatch := if gameDate.Some? && gameDate.value != "" then Find(sorted, OnDay(GameDay(gameDate.value))) else None;
      if dayMatch.Some? then Some(dayMatch.value.clickUrl)
      else
        var next := Find(sorted, StartsAfter(now));
        if next.Some? then Some(next.value.clickUrl) else None
  }

  lemma StartsNoLaterIsPreorder()
    ensures TotalPreorder(StartsNoLater)
  {
  }

  /** The first product of the sorted list matching `p`, if any, is a
      product matching `p` that starts no later than any other one. */
  lemma EarliestMatch(products: seq<CJProduct>, p: CJProduct -> bool)
    ensures Find(SortWith(products, StartsNoLater), p).None? <==> forall x :: x in products ==> !p(x)
    ensures Find(SortWith(products, StartsNoLater), p).Some? ==>
      var q := Find(SortWith(products, StartsNoLater), p).value;
      q in products && p(q) && forall x :: x in products && p(x) ==> q.travelStartDate.ms <= x.travelStartDate.ms
  {
    var sorted := SortWith(products, StartsNoLater);
    assert forall x :: x in sorted <==> x in products by {
      assert multiset(sorted) == multiset(products);
      forall x ensures x in sorted <==> x in products {
        assert x in sorted <==> x in multiset(sorted);
        assert x in products <==> x in multiset(products);
      }
    }
    StartsNoLaterIsPreorder();
    SortSorted(products, StartsNoLater);
    if Find(sorted, p).Some? {
      FindInSortedIsLeast(sorted, p, StartsNoLater);
    } else {
      forall x | x in products ensures !p(x) {
        var i :| 0 <= i < |sorted| && sorted[i] == x;
      }
    }
  }

  /** What the choice promises: nothing from an empty list; the earliest
      product on the game's day when there is one; otherwise the earliest
      product still to come, and nothing exactly when none is to come. */
  lemma FindGameTicketLinkChoice(products: seq<CJProduct>, gameDate: Option<string>, now: int)
    ensures products == [] ==> FindGameTicketLink(products, gameDate, now) == None
    ensures gameDate.Some? && gameDate.value != "" && (exists x :: x in products && OnDay(GameDay(gameDate.value))(x)) ==>
      exists q :: q in products && OnDay(GameDay(gameDate.value))(q)
        && FindGameTicketLink(products, gameDate, now) == Some(q.clickUrl)
        && forall x :: x in products && OnDay(GameDay(gameDate.value))(x) ==> q.travelStartDate.ms <= x.travelStartDate.ms
    ensures (gameDate.None? || gameDate.value == "" || forall x :: x in products ==> !OnDay(GameDay(gameDate.value))(x)) ==>
      && (FindGameTicketLink(products, gameDate, now).Some? <==> exists x :: x in products && x.travelStartDate.ms > now)
      && (FindGameTicketLink(products, gameDate, now).Some? ==>
            exists q :: q in products && q.travelStartDate.ms > now
              && FindGameTicketLink(products, gameDate, now) == Some(q.clickUrl)
              && forall x :: x in products && x.travelStartDate.ms > now ==> q.travelStartDate.ms <= x.travelStartDate.ms)
  {
    if products != [] {
      var sorted := SortWith(products, StartsNoLater);
      EarliestMatch(products, StartsAfter(now));
      if gameDate.Some? && gameDate.value != "" {
        EarliestMatch(products, OnDay(GameDay(gameDate.value)));
      }
    }
  }

  /** The cache key of a team's game: the team slug and the game day,
      separated by a bar. */
  function CacheKey(teamFullName: string, gameDate: string): string {
    Slugify(teamFullName) + "|" + GameDay(gameDate)
  }

  /** Keys are unambiguous: as long as the team name holds no bar, the key
      splits back into the slug and the game day, so two games share a key
      exactly when they are for the same team slug on the same day. */
  lemma CacheKeySplits(teamFullName: string, gameDate: string)
    requires '|' !in teamFullName
    ensures '|' !in GameDay(gameDate) ==> Split(CacheKey(teamFullName, gameDate), '|') == [Slugify(teamFullName), GameDay(gameDate)]
    ensures Split(CacheKey(teamFullName, gameDate), '|')[0] == Slugify(teamFullName)
  {
    var slug := Slugify(teamFullName);
    assert '|' !in ToLower(teamFullName);
    CollapseKeeps(ToLower(teamFullName), '|');
    assert CacheKey(teamFullName, gameDate) == slug + ['|'] + GameDay(gameDate);
    SplitCons(slug, '|', GameDay(gameDate));
    if '|' !in GameDay(gameDate) {
      SplitNone(GameDay(gameDate), '|');
    }
  }

  /** Collapsing whitespace introduces no character but the hyphen. */
  lemma {:induction false} CollapseKeeps(s: string, c: char)
    requires c != '-' && c !in s
    ensures c !in CollapseSpaces(s)
    decreases |s|
  {
    if s != [] {
      if IsSpace(s[0]) {
        var rest := DropSpaces(s[1..]);
        assert c !in rest;
        CollapseKeeps(rest, c);
      } else {
        CollapseKeeps(s[1..], c);
      }
    }
  }

  /** A cache of ticket URLs. */
  type TicketCache = Store<string>

  /** `getAffiliateLinks`. A game with a time first consults the cache, and a
      non-empty cached URL is returned without searching. Otherwise the
      search runs (its `reply` is what the feed answered to the query for
      `team` and its opponent) and a product is chosen; no usable URL
      gives `None` and writes nothing; a usable one is cached under the
      game's key when the game has a time. The call reads the clock
      separately: `readAt` when the cache is consulted, `chooseAt` when the
      product is chosen after the awaited search, and `writeAt` when the
      entry is stamped and the purge runs. `purge` and `writeOk` are as for
      `Store.Set`. */
  method GetAffiliateLinks(store: TicketCache, team: Team, league: string, game: Option<Game>,
                           creds: Credentials, reply: Option<seq<RawProduct>>,
                           readAt: int, chooseAt: int, writeAt: int, purge: bool, writeOk: bool)
    returns (tickets: Option<string>, searched: bool)
    modifies store
    ensures var gameDate := if game.Some? && game.value.time.Some? then Some(game.value.time.value.iso) else None;
      var hit := if gameDate.Some? then old(store.Get(CacheKey(team.fullName, gameDate.value), readAt)) else None;
      var found := FindGameTicketLink(SearchTicketNetworkEvents(creds, reply, league), gameDate, chooseAt);
      && (hit.Some? && hit.value != "" ==> tickets == hit && !searched && store.file == old(store.file))
      && (!(hit.Some? && hit.value != "") ==> searched && tickets == (if found.Some? && found.value != "" then found else None))
      && (!(hit.Some? && hit.value != "") && (tickets.None? || gameDate.None?) ==> store.file == old(store.file))
      && (!(hit.Some? && hit.value != "") && tickets.Some? && gameDate.Some? ==>
            (writeOk ==> store.file == Some(Written(old(store.Read()), CacheKey(team.fullName, gameDate.value), tickets.value, writeAt, purge, store.ttl)))
            && (!writeOk ==> store.file == old(store.file)))
  {
    var gameDate := if game.Some? && game.value.time.Some? then Some(game.value.time.value.iso) else None;
    if gameDate.Some? {
      var cached := store.Get(CacheKey(team.fullName, gameDate.value), readAt);
      if cached.Some? && cached.value != "" {
        return cached, false;
      }
    }
    var products := SearchTicketNetworkEvents(creds, reply, league);
    searched := true;
    var ticketUrl := FindGameTicketLink(products, gameDate, chooseAt);
    if ticketUrl.None? || ticketUrl.value == "" {
      return None, true;
    }
    if gameDate.Some? {
      store.Set(CacheKey(team.fullName, gameDate.value), ticketUrl.value, writeAt, purge, writeOk);
    }
    tickets := ticketUrl;
  }

  /** Once a link for a timed game is found and written, asking again at
      any time within seven days is a cache hit for the same link. */
  lemma RepeatIsHit(cache: map<string, Entry<string>>, key: string, url: string, now: int, later: int, purge: bool)
    requires now <= later <= now + CACHE_TTL_MS
    ensures Lookup(Written(cache, key, url, now, purge, CACHE_TTL_MS), key, later, CACHE_TTL_MS) == Some(url)
  {
    WrittenThenRead(cache, key, url, now, purge, CACHE_TTL_MS);
  }
}
