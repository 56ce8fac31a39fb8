/** The nightly NHL schedule job: fetch every club's season schedule two
    clubs at a time, merge the replies keeping one copy of each game, drop
    the preseason and sort by start time. */
module NhlSchedule {
  import opened Options
  import opened Sequences
  import opened Domain

  const BATCH_SIZE := 2
  const PRESEASON := 1

  /** A game of a club's schedule; `start` is `startTimeUTC` with its parsed
      value. Fields the job only passes through are not modelled. */
  datatype ScheduledGame = ScheduledGame(id: int, gameType: int, start: Stamp)

  function GameId(g: ScheduledGame): int {
    g.id
  }

  /** `fetchTeamSchedule`: a reply that is not OK (None) or carries no
      games gives no games. */
  function TeamSchedule(reply: Option<seq<ScheduledGame>>): seq<ScheduledGame> {
    if reply.None? then [] else reply.value
  }

  /** Every game the first `k` replies carry, club after club. */
  function FetchedUpTo(replies: seq<Option<seq<ScheduledGame>>>, k: nat): seq<ScheduledGame>
    requires k <= |replies|
  {
    if k == 0 then [] else FetchedUpTo(replies, k - 1) + TeamSchedule(replies[k - 1])
  }

  /** Every game the replies carry. */
  function Fetched(replies: seq<Option<seq<ScheduledGame>>>): seq<ScheduledGame> {
    FetchedUpTo(replies, |replies|)
  }

  function ConcatAll<T>(lists: seq<seq<T>>): seq<T>
    decreases |lists|
  {
    if lists == [] then [] else ConcatAll(lists[..|lists| - 1]) + lists[|lists| - 1]
  }

  /** The batch loop and the id-guarded merge of `fetchAndSaveNhlSchedule`.
      `replies[k]` is the schedule server's answer for `abbreviations[k]`.
      Besides the merged games the method returns the batches it made. */
  method FetchAndMerge(abbreviations: seq<string>, replies: seq<Option<seq<ScheduledGame>>>)
    returns (allGames: seq<ScheduledGame>, batches: seq<seq<string>>)
    requires |replies| == |abbreviations|
    ensures allGames == DedupeBy(Fetched(replies), GameId)
    ensures ConcatAll(batches) == abbreviations
    ensures forall b :: b in batches ==> 1 <= |b| <= BATCH_SIZE
    ensures forall k :: 0 <= k < |batches| ==>
      BATCH_SIZE * k < |abbreviations| && batches[k] == abbreviations[BATCH_SIZE * k..BatchEnd(k, |abbreviations|)]
  {
    allGames := [];
    batches := [];
    var seenGameIds: set<int> := {};
    var n := |abbreviations|;
    var i := 0;
    ghost var done := 0;
    while i < n
      invariant 0 <= i <= n + 1
      invariant done == if i < n then i else n
      invariant allGames == DedupeBy(FetchedUpTo(replies, done), GameId)
      invariant seenGameIds == KeySet(allGames, GameId)
      invariant i == BATCH_SIZE * |batches| && BatchesOf(abbreviations, batches, done)
    {
      var end := if i + BATCH_SIZE < n then i + BATCH_SIZE else n;
      var batch := abbreviations[i..end];
      var batchResults := BatchSchedules(replies[i..end]);
      BatchSchedulesAt(replies, i, end);
      allGames, seenGameIds := MergeBatch(allGames, seenGameIds, batchResults, replies, i, end);
      BatchesStep(abbreviations, batches, i, end);
      batches := batches + [batch];
      i := i + BATCH_SIZE;
      done := end;
    }
    BatchesDone(abbreviations, batches);
  }

  lemma BatchesDone(abbreviations: seq<string>, batches: seq<seq<string>>)
    requires BatchesOf(abbreviations, batches, |abbreviations|)
    ensures ConcatAll(batches) == abbreviations
    ensures forall b :: b in batches ==> 1 <= |b| <= BATCH_SIZE
    ensures forall k :: 0 <= k < |batches| ==>
      BATCH_SIZE * k < |abbreviations| && batches[k] == abbreviations[BATCH_SIZE * k..BatchEnd(k, |abbreviations|)]
  {
    assert abbreviations[..|abbreviations|] == abbreviations;
  }

  /** The schedules of a batch are the replies of its clubs. */
  lemma BatchSchedulesAt(replies: seq<Option<seq<ScheduledGame>>>, i: nat, end: nat)
    requires i <= end <= |replies|
    ensures var r := BatchSchedules(replies[i..end]);
      end == i + |r| && forall k :: 0 <= k < |r| ==> r[k] == TeamSchedule(replies[i + k])
  {
  }

  /** Where the k-th batch of `n` clubs ends: `slice(i, i + 2)` stops at the end. */
  function BatchEnd(k: nat, n: nat): nat {
    if BATCH_SIZE * k + BATCH_SIZE < n then BATCH_SIZE * k + BATCH_SIZE else n
  }

  /** `Promise.all(batch.map(fetchTeamSchedule))`: the batch's schedules in
      batch order. */
  function BatchSchedules(replies: seq<Option<seq<ScheduledGame>>>): (r: seq<seq<ScheduledGame>>)
    ensures |r| == |replies|
    ensures forall k :: 0 <= k < |replies| ==> r[k] == TeamSchedule(replies[k])
  {
    if replies == [] then [] else [TeamSchedule(replies[0])] + BatchSchedules(replies[1..])
  }

  /** `batches` are the first batches of `abbreviations`, covering its
      first `done` clubs: each at most BATCH_SIZE long and starting where
      the previous one ended. */
  ghost predicate BatchesOf(abbreviations: seq<string>, batches: seq<seq<string>>, done: nat) {
    && done <= |abbreviations|
    && ConcatAll(batches) == abbreviations[..done]
    && (forall b :: b in batches ==> 1 <= |b| <= BATCH_SIZE)
    && (forall k :: 0 <= k < |batches| ==>
          BATCH_SIZE * k < |abbreviations| && batches[k] == abbreviations[BATCH_SIZE * k..BatchEnd(k, |abbreviations|)])
  }

  /** The batch bookkeeping of one round: the next batch starts where the
      last one ended. */
  lemma BatchesStep(abbreviations: seq<string>, batches: seq<seq<string>>, i: nat, end: nat)
    requires i < |abbreviations| && i == BATCH_SIZE * |batches| && BatchesOf(abbreviations, batches, i)
    requires end == if i + BATCH_SIZE < |abbreviations| then i + BATCH_SIZE else |abbreviations|
    ensures BatchesOf(abbreviations, batches + [abbreviations[i..end]], end)
  {
    var n := |abbreviations|;
    var end := if i + BATCH_SIZE < n then i + BATCH_SIZE else n;
    var batch := abbreviations[i..end];
    ConcatAllSnoc(batches, batch);
    PrefixSplit(abbreviations, i, end);
    assert BatchEnd(|batches|, n) == end;
  }

  lemma PrefixSplit<T>(s: seq<T>, i: nat, j: nat)
    requires i <= j <= |s|
    ensures s[..j] == s[..i] + s[i..j]
  {
  }

  lemma ConcatAllSnoc<T>(lists: seq<seq<T>>, l: seq<T>)
    ensures ConcatAll(lists + [l]) == ConcatAll(lists) + l
  {
    assert (lists + [l])[..|lists|] == lists;
  }

  lemma FetchedStep(replies: seq<Option<seq<ScheduledGame>>>, k: nat)
    requires k < |replies|
    ensures FetchedUpTo(replies, k + 1) == FetchedUpTo(replies, k) + TeamSchedule(replies[k])
  {
  }

  /** The loop over one batch's replies, in batch order. */
  method MergeBatch(allGames: seq<ScheduledGame>, seenGameIds: set<int>, batchResults: seq<seq<ScheduledGame>>,
                    ghost replies: seq<Option<seq<ScheduledGame>>>, ghost i: nat, ghost end: nat)
    returns (merged: seq<ScheduledGame>, seen: set<int>)
    requires end == i + |batchResults| <= |replies|
    requires forall k :: 0 <= k < |batchResults| ==> batchResults[k] == TeamSchedule(replies[i + k])
    requires allGames == DedupeBy(FetchedUpTo(replies, i), GameId) && seenGameIds == KeySet(allGames, GameId)
    ensures merged == DedupeBy(FetchedUpTo(replies, end), GameId) && seen == KeySet(merged, GameId)
  {
    merged, seen := allGames, seenGameIds;
    var r := 0;
    ghost var k := i;
    ghost var fetchedSoFar := FetchedUpTo(replies, i);
    while r < |batchResults|
      invariant 0 <= r <= |batchResults| && k == i + r
      invariant fetchedSoFar == FetchedUpTo(replies, k)
      invariant merged == DedupeBy(fetchedSoFar, GameId)
      invariant seen == KeySet(merged, GameId)
    {
      merged, seen := MergeReply(merged, seen, batchResults[r], fetchedSoFar);
      FetchedStep(replies, k);
      fetchedSoFar := fetchedSoFar + batchResults[r];
      r := r + 1;
      k := k + 1;
    }
  }

  /** The inner loop of the merge: each game of one club's reply is added
      unless its id was seen. */
  method MergeReply(allGames: seq<ScheduledGame>, seenGameIds: set<int>, games: seq<ScheduledGame>,
                    ghost before: seq<ScheduledGame>)
    returns (merged: seq<ScheduledGame>, seen: set<int>)
    requires allGames == DedupeBy(before, GameId) && seenGameIds == KeySet(allGames, GameId)
    ensures merged == DedupeBy(before + games, GameId) && seen == KeySet(merged, GameId)
  {
    merged, seen := allGames, seenGameIds;
    var k := 0;
    ghost var prefix := before;
    while k < |games|
      invariant 0 <= k <= |games|
      invariant prefix == Taken(before, games, k)
      invariant merged == DedupeBy(prefix, GameId)
      invariant seen == KeySet(merged, GameId)
    {
      var game := games[k];
      MergeStep(prefix, game, merged);
      TakenStep(before, games, k);
      if game.id !in seen {
        seen := seen + {game.id};
        merged := merged + [game];
      }
      prefix := prefix + [game];
      k := k + 1;
    }
    TakenAll(before, games);
  }

  /** The games seen once the first `k` of a reply are merged. */
  ghost function Taken(before: seq<ScheduledGame>, games: seq<ScheduledGame>, k: nat): seq<ScheduledGame>
    requires k <= |games|
  {
    before + games[..k]
  }

  lemma TakenStep(before: seq<ScheduledGame>, games: seq<ScheduledGame>, k: nat)
    requires k < |games|
    ensures Taken(before, games, k + 1) == Taken(before, games, k) + [games[k]]
  {
    assert games[..k + 1] == games[..k] + [games[k]];
  }

  lemma TakenAll(before: seq<ScheduledGame>, games: seq<ScheduledGame>)
    ensures Taken(before, games, |games|) == before + games
  {
    assert games[..|games|] == games;
  }

  /** One game of the merge: it is appended, and its id recorded, exactly
      when its id is new. */
  lemma MergeStep(prefix: seq<ScheduledGame>, game: ScheduledGame, merged: seq<ScheduledGame>)
    requires merged == DedupeBy(prefix, GameId)
    ensures game.id in KeySet(merged, GameId) ==> DedupeBy(prefix + [game], GameId) == merged
    ensures game.id !in KeySet(merged, GameId) ==>
      DedupeBy(prefix + [game], GameId) == merged + [game]
      && KeySet(merged + [game], GameId) == KeySet(merged, GameId) + {game.id}
  {
    DedupeSnoc(prefix, game, GameId);
    KeySetSnoc(merged, game, GameId);
  }

  function NotPreseason(g: ScheduledGame): bool {
    g.gameType != PRESEASON
  }

  /** The sort's comparison, `startTimeUTC` as milliseconds. */
  function StartsNoLater(a: ScheduledGame, b: ScheduledGame): bool {
    a.start.ms <= b.start.ms
  }

  /** The schedule the job writes: the merged games without the preseason,
      by start time. */
  method FetchAndSaveNhlSchedule(abbreviations: seq<string>, replies: seq<Option<seq<ScheduledGame>>>)
    returns (games: seq<ScheduledGame>)
    requires |replies| == |abbreviations|
    ensures games == SortWith(Filter(DedupeBy(Fetched(replies), GameId), NotPreseason), StartsNoLater)
  {
    var allGames, _ := FetchAndMerge(abbreviations, replies);
    games := SortWith(Filter(allGames, NotPreseason), StartsNoLater);
  }

  /** What the written schedule holds: no game id twice; only fetched,
      non-preseason games; every game whose first fetched copy is not
      preseason; in start-time order. */
  lemma ScheduleSpec(replies: seq<Option<seq<ScheduledGame>>>)
    ensures var fetched := Fetched(replies);
      var games := SortWith(Filter(DedupeBy(fetched, GameId), NotPreseason), StartsNoLater);
      && DistinctKeys(games, GameId)
      && (forall g :: g in games ==> g in fetched && g.gameType != PRESEASON)
      && (forall i :: (0 <= i < |fetched| && fetched[i].gameType != PRESEASON
                       && (forall j :: 0 <= j < i ==> fetched[j].id != fetched[i].id)) ==> fetched[i] in games)
      && Sorted(games, StartsNoLater)
  {
    var fetched := Fetched(replies);
    var merged := DedupeBy(fetched, GameId);
    var kept := Filter(merged, NotPreseason);
    var games := SortWith(kept, StartsNoLater);
    DedupeDistinct(fetched, GameId);
    FilterKeepsDistinct(merged, NotPreseason, GameId);
    PermutationKeepsDistinct(kept, games, GameId);
    assert TotalPreorder(StartsNoLater);
    SortSorted(kept, StartsNoLater);
    forall g | g in games ensures g in fetched && g.gameType != PRESEASON {
      assert g in multiset(kept);
      assert g in kept;
      assert g in merged;
    }
    forall i | 0 <= i < |fetched| && fetched[i].gameType != PRESEASON
            && (forall j :: 0 <= j < i ==> fetched[j].id != fetched[i].id)
      ensures fetched[i] in games
    {
      DedupeKeepsFirst(fetched, GameId, i);
      assert fetched[i] in kept;
      assert fetched[i] in multiset(games);
    }
  }
}
