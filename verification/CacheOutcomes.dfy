/** What a get reports, and what that says about the cache before and after. */
module CacheOutcomes {
  import opened Descriptors
  import opened Regions
  import opened CacheState
  import opened Blocks
  import opened CuckooWalk
  import opened CuckooIndex
  import opened CacheFlight

  /** What a get reports: the data were cached, were in flight, are cached from now on (after
      an eviction because of the index, or for space), are not cached because of their size,
      or although an entry was evicted; or the program exits. */
  datatype Outcome =
    | Hit
    | StillInFlight
    | Cached
    | CachedRHT
    | CachedRSpace
    | NotCached
    | NotCachedHT
    | NotCachedSpace
    | Exited

  datatype Cause = NoEviction | ForIndex | ForSpace

  /** An entry is evicted exactly if the insertion into the index would fail, or, if it would
      not, there is no space. */
  function WhyEvict(insertable: bool, space: bool): Cause {
    if !insertable then ForIndex else if !space then ForSpace else NoEviction
  }

  predicate Caches(r: Outcome) { r.Cached? || r.CachedRHT? || r.CachedRSpace? }

  /** What an outcome says about the eviction behind it. */
  function Why(r: Outcome): Cause {
    if r.CachedRHT? || r.NotCachedHT? then ForIndex
    else if r.CachedRSpace? || r.NotCachedSpace? then ForSpace
    else NoEviction
  }

  predicate Evicts(r: Outcome) { Why(r) != NoEviction }

  /** A free region for key and a way into the index were found, or not, by evicting at most
      one entry. */
  ghost predicate RoomMade(key: Key, insertable: bool, region: int, cause: Cause, evicted: set<Key>,
                           D: seq<Entry>, o: seq<int>, m: map<Key, int>, D': seq<Entry>, o': seq<int>,
                           m': map<Key, int>)
  {
    && Carried(D, m, D', m') && m' == m - evicted && cause == WhyEvict(insertable, !NoneFits(D, o, key.size))
    && evicted <= m.Keys && |evicted| == (if cause == NoEviction then 0 else 1)
    && (region == NOENTRY ==> NoneFits(D, o, key.size) && NoneFits(D', o', key.size))
    && (region != NOENTRY ==> Free(D', region) && D'[region].size >= key.size)
  }

  /** What is evicted is the entry of the region chosen for it: on the walk of the insertion, or in
      the sample of the index, the one with the least score. */
  ghost predicate VictimRight(h: Hash, T: seq<Slot>, K: seq<Held>, m: map<Key, int>, o: seq<int>, key: Key, t: int,
                              score: Slot -> real, cause: Cause, evicted: set<Key>, c: Choice)
  {
    && (evicted == {} <==> c.victim == NOENTRY)
    && forall k :: k in evicted ==>
         k in m && RegionAt(o, c.victim, m[k]) && VictimFor(h, T, K, |m|, key, t, score, cause == ForIndex, m[k])
  }

  /** What a get of uncached data does to the blocks of the buffer, and at whose expense. */
  ghost predicate Replaced(h: Hash, T: seq<Slot>, K: seq<Held>, m: map<Key, int>, o: seq<int>, V: seq<Block>,
                           V': seq<Block>, key: Key, t: int, score: Slot -> real, outcome: Outcome, evicted: set<Key>,
                           c: Choice)
  {
    && Arranged(V, V', key, c) && (Caches(outcome) <==> c.used != NOENTRY)
    && VictimRight(h, T, K, m, o, key, t, score, Why(outcome), evicted, c)
  }

  /** The same of any get, for a buffer of M bytes. */
  ghost predicate BlocksDone(h: Hash, T: seq<Slot>, K: seq<Held>, m: map<Key, int>, o: seq<int>, V: seq<Block>,
                             V': seq<Block>, key: Key, t: int, score: Slot -> real, M: nat, outcome: Outcome,
                             evicted: set<Key>, c: Choice)
  {
    if key in m || key.size > M then V' == V else Replaced(h, T, K, m, o, V, V', key, t, score, outcome, evicted, c)
  }

  /** What a get of uncached data does: at most one entry is evicted, for the reason that the
      outcome says, and all others stay as they are.  If a free region fits, the data are
      cached; if they are not, no free region fits even after the eviction. */
  ghost predicate MissDone(key: Key, insertable: bool, outcome: Outcome, evicted: set<Key>,
                           D: seq<Entry>, o: seq<int>, m: map<Key, int>, D': seq<Entry>, o': seq<int>,
                           m': map<Key, int>)
  {
    && Carried(D, m, D', m')
    && Why(outcome) == WhyEvict(insertable, !NoneFits(D, o, key.size))
    && evicted <= m.Keys && |evicted| == (if Evicts(outcome) then 1 else 0)
    && m'.Keys == m.Keys - evicted + (if Caches(outcome) then {key} else {})
    && (Caches(outcome) || outcome.NotCachedHT? || outcome.NotCachedSpace?)
    && (!Caches(outcome) ==> NoneFits(D, o, key.size) && NoneFits(D', o', key.size))
  }

  /** What a get does to a cache of M bytes.  It is a hit exactly if the data are cached and
      have arrived; then, or if they are on their way, or too large to be cached, nothing
      changes. */
  ghost predicate GetDone(key: Key, insertable: bool, outcome: Outcome, evicted: set<Key>, M: nat,
                          D: seq<Entry>, o: seq<int>, m: map<Key, int>, D': seq<Entry>, o': seq<int>, m': map<Key, int>)
  {
    && (outcome.Hit? <==> key in m && !Waiting(D, m, key))
    && (outcome.StillInFlight? <==> Waiting(D, m, key))
    && (outcome.NotCached? <==> key !in m && key.size > M)
    && if outcome.Hit? || outcome.StillInFlight? || outcome.NotCached? then
         evicted == {} && D' == D && o' == o && m' == m
       else
         MissDone(key, insertable, outcome, evicted, D, o, m, D', o', m')
  }

  lemma NoVictim(h: Hash, T: seq<Slot>, K: seq<Held>, m: map<Key, int>, o: seq<int>, key: Key, t: int,
                 score: Slot -> real, c: Choice)
    requires c.victim == NOENTRY
    ensures VictimRight(h, T, K, m, o, key, t, score, NoEviction, {}, c)
  {
  }

  lemma OneVictim(h: Hash, T: seq<Slot>, K: seq<Held>, m: map<Key, int>, o: seq<int>, key: Key, t: int,
                  score: Slot -> real, inIndex: bool, cause: Cause, gone: Key, c: Choice)
    requires gone in m && RegionAt(o, c.victim, m[gone]) && cause == (if inIndex then ForIndex else ForSpace)
    requires VictimFor(h, T, K, |m|, key, t, score, inIndex, m[gone])
    ensures VictimRight(h, T, K, m, o, key, t, score, cause, {gone}, c)
  {
    hide VictimFor;
  }

  lemma RoomThere(key: Key, insertable: bool, region: int, D: seq<Entry>, o: seq<int>, m: map<Key, int>, D1: seq<Entry>)
    requires HandlesOnly(D, D1) && Free(D1, region) && D1[region].size >= key.size && insertable
    requires !NoneFits(D, o, key.size)
    requires forall k :: k in m ==> 0 <= m[k] < |D1|
    ensures RoomMade(key, insertable, region, NoEviction, {}, D, o, m, D1, o, m)
  {
  }

  lemma RoomByEviction(key: Key, insertable: bool, held: int, region: int, cause: Cause, gone: Key, D: seq<Entry>,
                       o: seq<int>, m: map<Key, int>,
                       D1: seq<Entry>, D2: seq<Entry>, o2: seq<int>)
    requires HandlesOnly(D, D1) && Carried(D1, m, D2, m - {gone}) && gone in m
    requires (forall k :: k in m ==> 0 <= m[k] < |D1|)
    requires held == NOENTRY <==> NoneFits(D, o, key.size)
    requires cause == (if insertable then ForSpace else ForIndex) && (insertable ==> held == NOENTRY)
    requires region == NOENTRY ==> held == NOENTRY && NoneFits(D2, o2, key.size)
    requires region != NOENTRY ==> Free(D2, region) && D2[region].size >= key.size
    ensures RoomMade(key, insertable, region, cause, {gone}, D, o, m, D2, o2, m - {gone})
  {
  }

  lemma RoomFacts(key: Key, insertable: bool, region: int, cause: Cause, evicted: set<Key>,
                  D: seq<Entry>, o: seq<int>, m: map<Key, int>, D2: seq<Entry>, o2: seq<int>, m2: map<Key, int>)
    requires RoomMade(key, insertable, region, cause, evicted, D, o, m, D2, o2, m2)
    ensures region != NOENTRY ==> Free(D2, region) && D2[region].size >= key.size
    ensures key !in m ==> key !in m2
  {
  }

  lemma MissFails(key: Key, insertable: bool, outcome: Outcome, cause: Cause, evicted: set<Key>,
                  D: seq<Entry>, o: seq<int>, m: map<Key, int>, D2: seq<Entry>, o2: seq<int>, m2: map<Key, int>)
    requires RoomMade(key, insertable, NOENTRY, cause, evicted, D, o, m, D2, o2, m2)
    requires outcome == if cause == ForIndex then NotCachedHT else NotCachedSpace
    ensures MissDone(key, insertable, outcome, evicted, D, o, m, D2, o2, m2) && Why(outcome) == cause
    ensures !Caches(outcome)
  {
  }

  lemma MissCaches(key: Key, insertable: bool, outcome: Outcome, region: int, cause: Cause, evicted: set<Key>,
                   D: seq<Entry>, o: seq<int>, m: map<Key, int>, D2: seq<Entry>, o2: seq<int>, m2: map<Key, int>,
                   D3: seq<Entry>, o3: seq<int>, n: int)
    requires RoomMade(key, insertable, region, cause, evicted, D, o, m, D2, o2, m2) && region != NOENTRY && key !in m
    requires Carried(D2, m2, D3, m2[key := n])
    requires outcome == if cause == NoEviction then Cached else if cause == ForIndex then CachedRHT else CachedRSpace
    ensures MissDone(key, insertable, outcome, evicted, D, o, m, D3, o3, m2[key := n]) && Why(outcome) == cause
    ensures Caches(outcome)
  {
    CarriedOn(D, m, D2, m2, D3, m2[key := n]);
  }

  lemma FetchDone(key: Key, insertable: bool, outcome: Outcome, evicted: set<Key>, M: nat,
                  D: seq<Entry>, o: seq<int>, m: map<Key, int>, D': seq<Entry>, o': seq<int>, m': map<Key, int>)
    requires key in m ==> Waiting(D, m, key)
    requires if key in m then outcome == StillInFlight else if key.size > M then outcome == NotCached
             else MissDone(key, insertable, outcome, evicted, D, o, m, D', o', m')
    requires key in m || key.size > M ==> evicted == {} && D' == D && o' == o && m' == m
    ensures GetDone(key, insertable, outcome, evicted, M, D, o, m, D', o', m')
    ensures AllWait(D, m) ==> AllWait(D', m')
  {
  }
}
