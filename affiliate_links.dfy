/** Affiliate links of a team page: a ticket search, a sportsbook and a merch
    store, each carrying its partner id in a form-encoded query string once
    the id is configured. */
module AffiliateLinks {
  import opened Options
  import opened Strings
  import opened Domain
  import TicketLinks

  const PLACEHOLDER := "PLACEHOLDER"
  const STUBHUB_BASE := "https://www.stubhub.com"
  const DRAFTKINGS_BASE := "https://sportsbook.draftkings.com"
  const FANATICS_BASE := "https://www.fanatics.com"

  /** `process.env.X || 'PLACEHOLDER'`: an unset or empty variable is the placeholder. */
  function ConfiguredId(env: Option<string>): (r: string)
    ensures r == PLACEHOLDER <==> env.None? || env.value == "" || env.value == PLACEHOLDER
    ensures env.Some? && env.value != "" ==> r == env.value
  {
    if env.None? || env.value == "" then PLACEHOLDER else env.value
  }

  // ---- application/x-www-form-urlencoded, as URLSearchParams writes it ----

  /** Characters the form encoding writes as themselves. */
  predicate IsUnreserved(c: char) {
    ('a' <= c <= 'z') || ('A' <= c <= 'Z') || ('0' <= c <= '9') || c == '*' || c == '-' || c == '.' || c == '_'
  }

  /** Characters an encoded value can hold. */
  predicate IsEncodedChar(c: char) {
    IsUnreserved(c) || c == '+' || c == '%'
  }

  function HexDigit(n: int): (c: char)
    requires 0 <= n < 16
    ensures IsUnreserved(c) && c != '*' && c != '-' && c != '.' && c != '_'
  {
    if n < 10 then (48 + n) as char else (55 + n) as char
  }

  /** The value of an upper-case hexadecimal digit, None for any other character. */
  function HexValue(c: char): (r: Option<int>)
    ensures r.Some? ==> 0 <= r.value < 16
  {
    if '0' <= c <= '9' then Some(c as int - 48)
    else if 'A' <= c <= 'F' then Some(c as int - 55)
    else None
  }

  lemma HexDigitValue(n: int)
    requires 0 <= n < 16
    ensures HexValue(HexDigit(n)) == Some(n)
  {
  }

  /** The UTF-8 bytes of a code point. */
  function Utf8(c: char): (bytes: seq<int>)
    ensures 1 <= |bytes| <= 4
    ensures forall i :: 0 <= i < |bytes| ==> 0 <= bytes[i] < 256
    ensures |bytes| == 1 <==> c as int < 128
    ensures |bytes| == 1 ==> bytes[0] == c as int
  {
    var cp := c as int;
    if cp < 0x80 then [cp]
    else if cp < 0x800 then [0xC0 + cp / 64, 0x80 + cp % 64]
    else if cp < 0x10000 then [0xE0 + cp / 4096, 0x80 + (cp / 64) % 64, 0x80 + cp % 64]
    else [0xF0 + cp / 262144, 0x80 + (cp / 4096) % 64, 0x80 + (cp / 64) % 64, 0x80 + cp % 64]
  }

  /** Every byte as "%XX" in upper-case hexadecimal. */
  function PercentBytes(bytes: seq<int>): (r: string)
    requires forall i :: 0 <= i < |bytes| ==> 0 <= bytes[i] < 256
    ensures |r| == 3 * |bytes|
    ensures forall i :: 0 <= i < |r| ==> IsEncodedChar(r[i]) && r[i] != '+'
  {
    if bytes == [] then ""
    else "%" + [HexDigit(bytes[0] / 16), HexDigit(bytes[0] % 16)] + PercentBytes(bytes[1..])
  }

  function EncodeChar(c: char): (r: string)
    ensures 1 <= |r|
    ensures forall i :: 0 <= i < |r| ==> IsEncodedChar(r[i])
  {
    if IsUnreserved(c) then [c]
    else if c == ' ' then "+"
    else PercentBytes(Utf8(c))
  }

  /** `URLSearchParams` value serialisation. */
  function FormEncode(s: string): (r: string)
    ensures |r| >= |s|
    ensures forall i :: 0 <= i < |r| ==> IsEncodedChar(r[i])
  {
    if s == "" then "" else EncodeChar(s[0]) + FormEncode(s[1..])
  }

  /** Form decoding of single-byte escapes: '+' is a space, "%XX" the
      character with that code, anything else itself. */
  function FormDecode(s: string): string {
    if s == "" then ""
    else if s[0] == '+' then " " + FormDecode(s[1..])
    else if s[0] == '%' && |s| >= 3 && HexValue(s[1]).Some? && HexValue(s[2]).Some? then
      [(HexValue(s[1]).value * 16 + HexValue(s[2]).value) as char] + FormDecode(s[3..])
    else [s[0]] + FormDecode(s[1..])
  }

  predicate IsAscii(s: string) {
    forall i :: 0 <= i < |s| ==> s[i] as int < 128
  }

  lemma DecodeOneChar(c: char, t: string)
    requires c as int < 128
    ensures FormDecode(EncodeChar(c) + t) == [c] + FormDecode(t)
  {
    if IsUnreserved(c) {
      assert ([c] + t)[1..] == t;
    } else if c == ' ' {
      assert ("+" + t)[1..] == t;
    } else {
      var n := c as int;
      HexDigitValue(n / 16);
      HexDigitValue(n % 16);
      var e := "%" + [HexDigit(n / 16), HexDigit(n % 16)];
      assert PercentBytes([n]) == e + PercentBytes([]);
      assert EncodeChar(c) == e;
      assert (e + t)[3..] == t;
      assert (e + t)[1] == HexDigit(n / 16) && (e + t)[2] == HexDigit(n % 16);
    }
  }

  /** Decoding an encoded ASCII value gives the value back. */
  lemma {:induction false} FormRoundTrip(s: string)
    requires IsAscii(s)
    ensures FormDecode(FormEncode(s)) == s
    decreases |s|
  {
    if s != "" {
      assert IsAscii(s[1..]) by {
        forall i | 0 <= i < |s[1..]| ensures s[1..][i] as int < 128 {
          assert s[1..][i] == s[i + 1];
        }
      }
      FormRoundTrip(s[1..]);
      DecodeOneChar(s[0], FormEncode(s[1..]));
      assert s == [s[0]] + s[1..];
    }
  }

  /** An encoded value never holds a character that would end the value or
      the query: no '&', '=', '#', '?', '/' or space. */
  lemma EncodedIsQuerySafe(s: string)
    ensures forall i :: 0 <= i < |FormEncode(s)| ==>
      FormEncode(s)[i] !in {'&', '=', '#', '?', '/', ' '}
  {
  }

  // ---- the three links ----

  /** The query string of a link: `name=value` when the id is configured. */
  function Query(name: string, id: string): string {
    if id != PLACEHOLDER then name + "=" + FormEncode(id) else ""
  }

  /** `${url}${queryString ? `?${queryString}` : ''}` */
  function WithQuery(url: string, query: string): string {
    url + (if query != "" then "?" + query else "")
  }

  /** The ticket search of a team: its slug followed by "-tickets". */
  function TicketPath(team: Team): string {
    STUBHUB_BASE + "/" + Slugify(team.fullName) + "-tickets"
  }

  /** `generateTicketLink`. */
  function TicketLink(team: Team, affiliateId: string): string {
    WithQuery(TicketPath(team), Query("affid", affiliateId))
  }

  /** `generateBettingLink`. */
  function BettingLink(referralCode: string): string {
    WithQuery(DRAFTKINGS_BASE, Query("referral", referralCode))
  }

  /** The store page of a team: league and abbreviation, lower-cased. */
  function MerchPath(team: Team, league: string): string {
    FANATICS_BASE + "/" + ToLower(league) + "/" + ToLower(team.abbreviation)
  }

  /** `generateMerchLink`. */
  function MerchLink(team: Team, league: string, affiliateId: string): string {
    WithQuery(MerchPath(team, league), Query("_ref", affiliateId))
  }

  /** A link splits at '?' into its address and, exactly when the id is
      configured, a query `name=encoded id` from which an ASCII id decodes
      back. */
  lemma LinkParts(url: string, name: string, id: string)
    requires '?' !in url && '?' !in name && name != ""
    ensures id == PLACEHOLDER ==> Split(WithQuery(url, Query(name, id)), '?') == [url]
    ensures id != PLACEHOLDER ==> Split(WithQuery(url, Query(name, id)), '?') == [url, name + "=" + FormEncode(id)]
    ensures id != PLACEHOLDER && IsAscii(id) ==> FormDecode(FormEncode(id)) == id
  {
    if id == PLACEHOLDER {
      assert WithQuery(url, Query(name, id)) == url;
      SplitNone(url, '?');
    } else {
      ConfiguredLinkParts(url, name, id);
      if IsAscii(id) {
        FormRoundTrip(id);
      }
    }
  }

  /** A configured query holds no '?' and is not empty. */
  lemma ConfiguredQuery(name: string, id: string)
    requires '?' !in name && id != PLACEHOLDER
    ensures Query(name, id) == name + "=" + FormEncode(id)
    ensures '?' !in Query(name, id) && Query(name, id) != ""
  {
    EncodedIsQuerySafe(id);
    NoCharInConcat('?', name, "=", FormEncode(id));
  }

  lemma ConfiguredLinkParts(url: string, name: string, id: string)
    requires '?' !in url && '?' !in name && id != PLACEHOLDER
    ensures Split(WithQuery(url, Query(name, id)), '?') == [url, name + "=" + FormEncode(id)]
  {
    var q := Query(name, id);
    ConfiguredQuery(name, id);
    assert WithQuery(url, q) == url + ['?'] + q;
    SplitCons(url, '?', q);
    SplitNone(q, '?');
  }

  /** The ticket link's address is the ticket search for the team's slug,
      the same slug the ticket-link cache keys on; its query carries the
      affiliate id exactly when one is configured. */
  lemma TicketLinkShape(team: Team, affiliateId: string, gameDate: string)
    requires '?' !in team.fullName && '|' !in team.fullName
    ensures affiliateId == PLACEHOLDER ==> Split(TicketLink(team, affiliateId), '?') == [TicketPath(team)]
    ensures affiliateId != PLACEHOLDER ==>
      Split(TicketLink(team, affiliateId), '?') == [TicketPath(team), "affid=" + FormEncode(affiliateId)]
    ensures Split(TicketLinks.CacheKey(team.fullName, gameDate), '|')[0] == Slugify(team.fullName)
  {
    var slug := Slugify(team.fullName);
    assert '?' !in slug by {
      assert '?' !in ToLower(team.fullName);
      TicketLinks.CollapseKeeps(ToLower(team.fullName), '?');
    }
    assert '?' !in TicketPath(team) by {
      NoCharInConcat('?', STUBHUB_BASE + "/", slug, "-tickets");
    }
    LinkParts(TicketPath(team), "affid", affiliateId);
    assert "affid" + "=" == "affid=";
    TicketLinks.CacheKeySplits(team.fullName, gameDate);
  }

  /** The merch link's address is the store's page for the league and team,
      both lower-cased, as path segments of their own. */
  lemma MerchPathSegments(team: Team, league: string)
    requires '/' !in league && '/' !in team.abbreviation
    ensures Split(MerchPath(team, league), '/') == ["https:", "", "www.fanatics.com", ToLower(league), ToLower(team.abbreviation)]
  {
    var l := ToLower(league);
    var a := ToLower(team.abbreviation);
    assert '/' !in l && '/' !in a;
    assert MerchPath(team, league) == FANATICS_BASE + "/" + (l + ['/'] + a);
    MerchBaseSplit(l + ['/'] + a);
    SplitCons(l, '/', a);
    SplitNone(a, '/');
  }

  /** The merch link's query carries the affiliate id exactly when one is
      configured. */
  lemma MerchLinkShape(team: Team, league: string, affiliateId: string)
    requires '?' !in league && '?' !in team.abbreviation
    ensures affiliateId == PLACEHOLDER ==> Split(MerchLink(team, league, affiliateId), '?') == [MerchPath(team, league)]
    ensures affiliateId != PLACEHOLDER ==>
      Split(MerchLink(team, league, affiliateId), '?') == [MerchPath(team, league), "_ref=" + FormEncode(affiliateId)]
  {
    var l := ToLower(league);
    var a := ToLower(team.abbreviation);
    assert '?' !in l && '?' !in a;
    assert '?' !in MerchPath(team, league) by {
      NoCharInConcat('?', FANATICS_BASE + "/", l, "/" + a);
      assert MerchPath(team, league) == FANATICS_BASE + "/" + l + ("/" + a);
    }
    LinkParts(MerchPath(team, league), "_ref", affiliateId);
    assert "_ref" + "=" == "_ref=";
  }

  lemma NoCharInConcat(c: char, a: string, b: string, d: string)
    requires c !in a && c !in b && c !in d
    ensures c !in a + b + d
  {
  }

  /** Splitting the store's base URL followed by `rest` on slashes. */
  lemma MerchBaseSplit(rest: string)
    ensures Split(FANATICS_BASE + "/" + rest, '/') == ["https:", "", "www.fanatics.com"] + Split(rest, '/')
  {
    var pieces := ["https:", "", "www.fanatics.com"];
    FanaticsBasePieces();
    assert FANATICS_BASE + "/" + rest == Join(pieces, ['/']) + ['/'] + rest;
    SplitAfter(pieces, '/', rest);
  }

  /** The store's base URL is three slash-free pieces joined by slashes. */
  lemma FanaticsBasePieces()
    ensures Join(["https:", "", "www.fanatics.com"], ['/']) == FANATICS_BASE
    ensures forall i :: 0 <= i < 3 ==> '/' !in ["https:", "", "www.fanatics.com"][i]
  {
    JoinThree("https:", "", "www.fanatics.com", "/");
  }

  datatype Links = Links(tickets: Option<string>, betting: Option<string>, merch: Option<string>)

  /** `getAffiliateLinks`: outside production every link is offered; in
      production only those whose partner id is configured. `stubhubEnv`,
      `draftkingsEnv` and `fanaticsEnv` are the environment variables. */
  method GetAffiliateLinks(team: Team, league: string, isProduction: bool,
                           stubhubEnv: Option<string>, draftkingsEnv: Option<string>, fanaticsEnv: Option<string>)
    returns (r: Option<Links>)
    ensures var stubhub := ConfiguredId(stubhubEnv);
      var draftkings := ConfiguredId(draftkingsEnv);
      var fanatics := ConfiguredId(fanaticsEnv);
      && (r.None? <==> isProduction && stubhub == PLACEHOLDER && draftkings == PLACEHOLDER && fanatics == PLACEHOLDER)
      && (r.Some? ==>
            && (r.value.tickets.Some? <==> !isProduction || stubhub != PLACEHOLDER)
            && (r.value.betting.Some? <==> !isProduction || draftkings != PLACEHOLDER)
            && (r.value.merch.Some? <==> !isProduction || fanatics != PLACEHOLDER)
            && (r.value.tickets.Some? ==> r.value.tickets.value == TicketLink(team, stubhub))
            && (r.value.betting.Some? ==> r.value.betting.value == BettingLink(draftkings))
            && (r.value.merch.Some? ==> r.value.merch.value == MerchLink(team, league, fanatics)))
  {
    var stubhub := ConfiguredId(stubhubEnv);
    var draftkings := ConfiguredId(draftkingsEnv);
    var fanatics := ConfiguredId(fanaticsEnv);
    var links := Links(None, None, None);
    if !isProduction || stubhub != PLACEHOLDER {
      links := links.(tickets := Some(TicketLink(team, stubhub)));
    }
    if !isProduction || draftkings != PLACEHOLDER {
      links := links.(betting := Some(BettingLink(draftkings)));
    }
    if !isProduction || fanatics != PLACEHOLDER {
      links := links.(merch := Some(MerchLink(team, league, fanatics)));
    }
    if links.tickets.None? && links.betting.None? && links.merch.None? {
      return None;
    }
    return Some(links);
  }

  /** With no partner id configured, the development links carry no query
      at all: the betting link is the bare sportsbook address and the merch
      link holds no '?'. */
  lemma UnconfiguredLinksHaveNoQuery(team: Team, league: string)
    ensures BettingLink(PLACEHOLDER) == DRAFTKINGS_BASE
    ensures '?' !in league && '?' !in team.abbreviation ==> '?' !in MerchLink(team, league, PLACEHOLDER)
  {
    if '?' !in league && '?' !in team.abbreviation {
      var l := ToLower(league);
      var a := ToLower(team.abbreviation);
      assert '?' !in l && '?' !in a;
      assert MerchLink(team, league, PLACEHOLDER) == FANATICS_BASE + "/" + l + "/" + a;
    }
  }
}
