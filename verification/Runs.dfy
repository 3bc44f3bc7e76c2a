/** Whole runs of an application over a cached window, against the same run without a cache. */
module Runs {
  import opened Descriptors
  import opened CacheState
  import opened Blocks
  import opened CacheFlight
  import opened CacheDrain
  import opened Window
  import opened CuckooWalk
  import opened CuckooIndex
  import opened CacheOutcomes
  import opened ClampiCache

  /** What an application does with the window and with its memory, and the remote side to it. */
  datatype Op =
    | Read(origin: nat, key: Key)
    | FlushRank(rank: int)
    | Invalidation
    | Store(at: nat, data: seq<byte>)
    | Update(remote: Remote)

  /** What the application sees of an operation: of a get, the outcome, and its memory at the
      origin. */
  datatype Event = Got(outcome: Outcome, bytes: seq<byte>) | Silent

  // ---- without a cache ----

  /** The application without a cache: its memory, the gets issued and not flushed yet, and the
      remote window. */
  datatype Direct = Direct(app: seq<byte>, issued: seq<Rma>, remote: Remote)

  ghost function Step(s: Direct, op: Op): Direct {
    match op
    case Read(origin, key) => s.(issued := s.issued + [Rma(origin, key)])
    case FlushRank(rank) =>
      Direct(Complete(s.app, OfRank(s.issued, rank, true), s.remote), OfRank(s.issued, rank, false), s.remote)
    case Invalidation => s
    case Store(at, data) => s.(app := Write(s.app, at, data))
    case Update(remote) => s.(remote := remote)
  }

  /** The rules of one-sided communication: gets in progress deliver to disjoint addresses, and
      neither the application touches these, nor does anybody change the bytes they fetch. */
  ghost predicate Allowed(s: Direct, op: Op) {
    match op
    case Read(origin, key) =>
      Fits(Rma(origin, key), |s.app|) && forall g :: g in s.issued ==> Apart(g, Rma(origin, key))
    case FlushRank(_) => true
    case Invalidation => true
    case Store(at, data) => at + |data| <= |s.app| && forall g :: g in s.issued ==> Clear(g, at, |data|)
    case Update(remote) => Sized(remote) && forall g :: g in s.issued ==> remote(g.key) == s.remote(g.key)
  }

  ghost function DirectRun(s: Direct, ops: seq<Op>): Direct {
    if ops == [] then s else Step(DirectRun(s, ops[..|ops| - 1]), ops[|ops| - 1])
  }

  ghost predicate RunAllowed(s: Direct, ops: seq<Op>) {
    forall i :: 0 <= i < |ops| ==> Allowed(DirectRun(s, ops[..i]), ops[i])
  }

  // ---- what the outcomes tell about the cache ----

  /** The keys that are cached, those of them whose bytes the cache takes at the next flush, and
      the number of copies pending; the keys whose cached bytes may not be those of the remote
      window, and the addresses to which such bytes were delivered. */
  datatype Ledger = Ledger(cached: set<Key>, awaited: set<Key>, copies: nat, doubtful: set<Key>, marred: set<int>)

  const NOTHING := Ledger({}, {}, 0, {}, {})

  /** The mode of the cache, and the size of its buffer. */
  datatype Setup = Setup(transparent: bool, size: nat)

  /** The keys that a get enters. */
  function Entered(key: Key, outcome: Outcome): set<Key> {
    if Caches(outcome) then {key} else {}
  }

  predicate Within(a: int, at: nat, n: nat) { at <= a < at + n }

  function Span(at: nat, n: nat): set<int> {
    set a: int | at <= a < at + n && Within(a, at, n)
  }

  /** The keys of other ranks that a flush of the given rank takes too early. */
  function Early(l: Ledger, rank: int): set<Key> {
    set k | k in l.awaited && k.size > 0 && k.rank != rank
  }

  /** The keys that have arrived and that a change of the remote window affects. */
  function Outdated(l: Ledger, remote: Remote, remote': Remote): set<Key> {
    set k | k in l.cached && k !in l.awaited && remote'(k) != remote(k)
  }

  /** The ledger after a flush. */
  function Flushed(l: Ledger, rank: int, transparent: bool): Ledger {
    if transparent then NOTHING.(marred := l.marred)
    else l.(awaited := {}, copies := 0, doubtful := l.doubtful + Early(l, rank))
  }

  /** Where wrong bytes are after a get. */
  function MarredBy(l: Ledger, key: Key, hit: bool, span: set<int>): set<int> {
    if hit && key in l.doubtful then l.marred + span else l.marred - span
  }

  /** What an event tells of a get.  It is a hit exactly if the key is cached and not awaited, and
      delivers the remote bytes unless the key is doubtful.  It is too large exactly if it does
      not fit the buffer.  An empty cache caches what it can.  Whatever is cached enters its key,
      and an eviction strikes out one. */
  ghost predicate EntersGet(l: Ledger, origin: nat, key: Key, outcome: Outcome, bytes: seq<byte>, l': Ledger,
                            setup: Setup, remote: Remote)
  {
    && !outcome.Exited?
    && (outcome.Hit? <==> key in l.cached && key !in l.awaited)
    && (outcome.StillInFlight? <==> key in l.awaited)
    && (outcome.NotCached? <==> key !in l.cached && key.size > setup.size)
    && (l.cached == {} && key.size <= setup.size ==> Caches(outcome))
    && (outcome.Hit? && key !in l.doubtful ==> bytes == remote(key))
    && l'.copies == l.copies + |Entered(key, outcome)| <= PENDING_STACK
    && l'.cached - l.cached == Entered(key, outcome)
    && |l.cached - l'.cached| == (if Evicts(outcome) then 1 else 0)
    && l'.awaited == l.awaited * l'.cached + Entered(key, outcome)
    && l'.doubtful == l.doubtful * l'.cached - Entered(key, outcome)
    && l'.marred == MarredBy(l, key, outcome.Hit?, Span(origin, key.size))
  }

  /** How a ledger goes on with an operation, on the given remote window. */
  ghost predicate Enters(l: Ledger, op: Op, e: Event, l': Ledger, setup: Setup, remote: Remote) {
    match op
    case Read(origin, key) => e.Got? && EntersGet(l, origin, key, e.outcome, e.bytes, l', setup, remote)
    case FlushRank(rank) => e.Silent? && l' == Flushed(l, rank, setup.transparent)
    case Invalidation => e.Silent? && l' == NOTHING.(marred := l.marred)
    case Store(at, data) => e.Silent? && l' == l.(marred := l.marred - Span(at, |data|))
    case Update(remote') => e.Silent? && l' == l.(doubtful := l.doubtful + Outdated(l, remote, remote'))
  }

  // ---- both together ----

  /** The cached execution at one moment: descriptors, region list, entries, buffer, memory, gets
      in progress, remote window, and number of pending copies. */
  datatype Moment = Moment(D: seq<Entry>, o: seq<int>, m: map<Key, int>, mem: seq<byte>, app: seq<byte>,
                           out: seq<Rma>, remote: Remote, copies: int)

  ghost function Now(c: Cache): Moment
    reads c, c.Footprint()
  {
    Moment(c.desc[..], c.order, c.ht.contents, c.mem[..], c.win.app[..], c.win.outstanding, c.win.remote, c.penptr)
  }

  /** The window of the cached execution is at the same point as the direct one. */
  ghost predicate Along(x: Moment, s: Direct) {
    && x.remote == s.remote && |x.app| == |s.app|
    && AllApart(s.issued) && (forall g :: g in s.issued ==> Fits(g, |s.app|))
    && forall g :: g in x.out ==> g in s.issued
  }

  /** The ledger has exactly what is cached. */
  ghost predicate Exact(x: Moment, l: Ledger) {
    x.copies == l.copies && x.m.Keys == l.cached && forall k :: k in l.awaited <==> Waiting(x.D, x.m, k)
  }

  /** All that have arrived hold the remote bytes, but doubtful ones. */
  ghost predicate Right(D: seq<Entry>, m: map<Key, int>, mem: seq<byte>, remote: Remote, doubtful: set<Key>) {
    forall k :: k in m && !Waiting(D, m, k) && k !in doubtful ==>
      0 <= m[k] < |D| && D[m[k]].offset + k.size <= |mem| && Bytes(D, m, mem, k) == remote(k)
  }

  /** Two memories are the same, but at marred addresses. */
  ghost predicate AlikeBut(a: seq<byte>, b: seq<byte>, marred: set<int>) {
    |a| == |b| && forall i :: 0 <= i < |a| && i !in marred ==> a[i] == b[i]
  }

  /** Both executions will have the same memory once what is in progress has completed. */
  ghost predicate SameEnd(x: Moment, s: Direct, marred: set<int>) {
    AlikeBut(Complete(x.app, x.out, x.remote), Complete(s.app, s.issued, s.remote), marred)
  }

  ghost predicate Follows(x: Moment, s: Direct, l: Ledger) {
    Along(x, s) && Exact(x, l) && Right(x.D, x.m, x.mem, x.remote, l.doubtful) && SameEnd(x, s, l.marred)
  }

  /** The cached execution c follows the direct one, and the ledger tells how far. */
  ghost predicate Tracks(c: Cache, s: Direct, l: Ledger)
    reads c, c.Footprint()
  {
    c.Valid() && Follows(Now(c), s, l)
  }

  /** No get in progress delivers to address a. */
  ghost predicate Quiet(gets: seq<Rma>, a: nat) {
    forall g :: g in gets ==> Clear(g, a, 1)
  }

  /** The memory is that of the direct execution, but at marred addresses, and where a get is in
      progress. */
  ghost predicate SameBut(app: seq<byte>, s: Direct, marred: set<int>) {
    && |app| == |s.app| && (s.issued == [] && marred == {} ==> app == s.app)
    && forall a :: 0 <= a < |s.app| && Quiet(s.issued, a) && a !in marred ==> app[a] == s.app[a]
  }

  /** Executions that agree have the same memory wherever no get is in progress. */
  lemma SameMemory(x: Moment, s: Direct, l: Ledger)
    requires Follows(x, s, l) && Sized(s.remote)
    ensures SameBut(x.app, s, l.marred)
  {
    hide Exact, Right, Complete, Sized;
    forall a | 0 <= a < |s.app| && Quiet(s.issued, a) && a !in l.marred ensures x.app[a] == s.app[a] {
      CompleteAt(x.app, x.out, s.remote, a);
      CompleteAt(s.app, s.issued, s.remote, a);
    }
    assert s.issued == [] ==> forall a :: 0 <= a < |s.app| ==> Quiet(s.issued, a);
  }

  // ---- gets ----

  lemma AwaitedNext(D: seq<Entry>, m: map<Key, int>, D': seq<Entry>, m': map<Key, int>, evicted: set<Key>,
                    entered: set<Key>, awaited: set<Key>)
    requires Carried(D, m, D', m') && m'.Keys == m.Keys - evicted + entered
    requires forall k :: k in entered ==> k !in m
    requires forall k :: k in awaited <==> Waiting(D, m, k)
    ensures forall k :: k in awaited - evicted + entered <==> Waiting(D', m', k)
  {
    forall k ensures k in awaited - evicted + entered <==> Waiting(D', m', k) {
      assert k in m' <==> k in m'.Keys;
      assert k in m <==> k in m.Keys;
      if k in m && k in m' {
        assert k !in entered;
        assert Waiting(D', m', k) <==> Waiting(D, m, k);
      }
    }
  }

  /** One get: its key, what it reported, and the moments before and after it. */
  datatype Call = Call(origin: nat, key: Key, insertable: bool, outcome: Outcome, bytes: seq<byte>,
                       evicted: set<Key>, size: nat, x: Moment, x': Moment)

  ghost predicate Done(g: Call) {
    && GetDone(g.key, g.insertable, g.outcome, g.evicted, g.size, g.x.D, g.x.o, g.x.m, g.x'.D, g.x'.o, g.x'.m)
    && (forall k :: k in g.x.m ==> 0 <= g.x.m[k] < |g.x.D|)
    && g.x'.copies == g.x.copies + (if Caches(g.outcome) then 1 else 0)
    && (g.x.m == map[] && g.key.size <= g.size ==> Caches(g.outcome)) && g.x'.copies <= PENDING_STACK
  }

  /** What a get does to the buffer and to the memory. */
  ghost predicate Delivered(g: Call) {
    && g.x'.mem == g.x.mem && g.x'.remote == g.x.remote
    && g.x'.out == (if g.outcome.Hit? then g.x.out else g.x.out + [Rma(g.origin, g.key)])
    && (!g.outcome.Hit? ==> g.x'.app == g.x.app)
    && (g.outcome.Hit? ==>
          && g.key in g.x.m && 0 <= g.x.m[g.key] < |g.x.D| && g.x.D[g.x.m[g.key]].offset + g.key.size <= |g.x.mem|
          && g.bytes == Bytes(g.x.D, g.x.m, g.x.mem, g.key) && |g.bytes| == g.key.size
          && g.x'.app == Write(g.x.app, g.origin, g.bytes))
  }

  function AfterGet(l: Ledger, evicted: set<Key>, entered: set<Key>, marred: set<int>): Ledger {
    var cached := l.cached - evicted + entered;
    Ledger(cached, l.awaited - evicted + entered, l.copies + |entered|, l.doubtful * cached - entered, marred)
  }

  lemma EntryCount(key: Key, outcome: Outcome)
    ensures |Entered(key, outcome)| == (if Caches(outcome) then 1 else 0)
  {
  }

  lemma GetKeys(g: Call)
    requires Done(g)
    ensures Carried(g.x.D, g.x.m, g.x'.D, g.x'.m)
    ensures g.x'.m.Keys == g.x.m.Keys - g.evicted + Entered(g.key, g.outcome)
    ensures forall k :: k in Entered(g.key, g.outcome) ==> k !in g.x.m
    ensures g.evicted <= g.x.m.Keys && |g.evicted| == (if Evicts(g.outcome) then 1 else 0)
  {
    hide NoneFits;
  }

  lemma GetOutcome(g: Call)
    requires Done(g)
    ensures !g.outcome.Exited?
    ensures g.outcome.Hit? <==> g.key in g.x.m && !Waiting(g.x.D, g.x.m, g.key)
    ensures g.outcome.StillInFlight? <==> Waiting(g.x.D, g.x.m, g.key)
    ensures g.outcome.NotCached? <==> g.key !in g.x.m && g.key.size > g.size
    ensures g.x.m == map[] && g.key.size <= g.size ==> Caches(g.outcome)
    ensures g.x'.copies == g.x.copies + (if Caches(g.outcome) then 1 else 0) <= PENDING_STACK
  {
    hide NoneFits, Carried;
  }

  /** What an exact ledger tells of a key. */
  lemma KeyState(x: Moment, l: Ledger, key: Key)
    requires Exact(x, l)
    ensures x.m.Keys == l.cached && l.awaited <= l.cached && x.copies == l.copies
    ensures (key in x.m <==> key in l.cached) && (Waiting(x.D, x.m, key) <==> key in l.awaited)
    ensures l.cached == {} ==> x.m == map[]
  {
    assert forall k :: k in l.awaited ==> Waiting(x.D, x.m, k) && k in x.m.Keys;
  }

  lemma StruckOut(c: set<Key>, a: set<Key>, evicted: set<Key>, entered: set<Key>)
    requires (forall k :: k in entered ==> k !in c) && evicted <= c && a <= c
    ensures (c - evicted + entered) - c == entered && c - (c - evicted + entered) == evicted
    ensures a - evicted + entered == a * (c - evicted + entered) + entered
  {
  }

  lemma LedgerOfGet(g: Call, l: Ledger)
    requires Done(g) && Exact(g.x, l)
    ensures forall k :: k in Entered(g.key, g.outcome) ==> k !in l.cached
    ensures g.evicted <= l.cached && l.awaited <= l.cached
    ensures |g.evicted| == (if Evicts(g.outcome) then 1 else 0)
  {
    hide Done, Carried, Exact, Waiting;
    GetKeys(g);
    KeyState(g.x, l, g.key);
  }

  lemma OutcomeOfGet(g: Call, l: Ledger)
    requires Done(g) && Exact(g.x, l)
    ensures !g.outcome.Exited?
    ensures g.outcome.Hit? <==> g.key in l.cached && g.key !in l.awaited
    ensures g.outcome.StillInFlight? <==> g.key in l.awaited
    ensures g.outcome.NotCached? <==> g.key !in l.cached && g.key.size > g.size
    ensures l.cached == {} && g.key.size <= g.size ==> Caches(g.outcome)
    ensures l.copies + |Entered(g.key, g.outcome)| <= PENDING_STACK
  {
    hide Done, Exact, Waiting, Entered;
    GetOutcome(g);
    EntryCount(g.key, g.outcome);
    KeyState(g.x, l, g.key);
  }

  lemma HitRight(g: Call, l: Ledger)
    requires Done(g) && Delivered(g) && Right(g.x.D, g.x.m, g.x.mem, g.x.remote, l.doubtful)
    ensures g.outcome.Hit? && g.key !in l.doubtful ==> g.bytes == g.x.remote(g.key)
  {
    hide Done, Exact;
    GetOutcome(g);
  }

  lemma LedgerEnters(g: Call, l: Ledger, l': Ledger, marred: set<int>, transparent: bool)
    requires Done(g) && Delivered(g) && Exact(g.x, l) && Right(g.x.D, g.x.m, g.x.mem, g.x.remote, l.doubtful)
    requires l' == AfterGet(l, g.evicted, Entered(g.key, g.outcome), marred)
    requires marred == MarredBy(l, g.key, g.outcome.Hit?, Span(g.origin, g.key.size))
    ensures EntersGet(l, g.origin, g.key, g.outcome, g.bytes, l', Setup(transparent, g.size), g.x.remote)
  {
    hide Done, Delivered, Exact, Right, Entered, Span, MarredBy, Evicts;
    LedgerOfGet(g, l);
    OutcomeOfGet(g, l);
    HitRight(g, l);
    StruckOut(l.cached, l.awaited, g.evicted, Entered(g.key, g.outcome));
  }

  lemma ExactAfterGet(g: Call, l: Ledger, marred: set<int>)
    requires Done(g) && Exact(g.x, l)
    ensures Exact(g.x', AfterGet(l, g.evicted, Entered(g.key, g.outcome), marred))
  {
    hide Done, Carried, Waiting, Entered;
    GetKeys(g);
    GetOutcome(g);
    EntryCount(g.key, g.outcome);
    AwaitedNext(g.x.D, g.x.m, g.x'.D, g.x'.m, g.evicted, Entered(g.key, g.outcome), l.awaited);
  }

  /** What has arrived and stays is right as before; what is new has not arrived. */
  lemma CarriedRight(D: seq<Entry>, m: map<Key, int>, D': seq<Entry>, m': map<Key, int>, mem: seq<byte>, remote: Remote,
                     doubtful: set<Key>, doubtful': set<Key>)
    requires Carried(D, m, D', m') && Right(D, m, mem, remote, doubtful)
    requires forall k :: k in m && k in m' && k in doubtful ==> k in doubtful'
    ensures Right(D', m', mem, remote, doubtful')
  {
  }

  lemma RightAfterGet(g: Call, l: Ledger, marred: set<int>)
    requires Done(g) && Delivered(g) && Exact(g.x, l) && Right(g.x.D, g.x.m, g.x.mem, g.x.remote, l.doubtful)
    ensures var l' := AfterGet(l, g.evicted, Entered(g.key, g.outcome), marred);
            Right(g.x'.D, g.x'.m, g.x'.mem, g.x'.remote, l'.doubtful)
  {
    hide Done, Entered, Carried, Right, Waiting;
    GetKeys(g);
    var l' := AfterGet(l, g.evicted, Entered(g.key, g.outcome), marred);
    forall k | k in g.x.m && k in g.x'.m && k in l.doubtful ensures k in l'.doubtful {
      assert k in g.x'.m.Keys;
    }
    CarriedRight(g.x.D, g.x.m, g.x'.D, g.x'.m, g.x.mem, g.x.remote, l.doubtful, l'.doubtful);
  }

  /** The same bytes written to both, or different ones to one of them. */
  lemma AlikeAfterWrite(a: seq<byte>, b: seq<byte>, marred: set<int>, at: nat, x: seq<byte>, y: seq<byte>)
    requires AlikeBut(a, b, marred) && |x| == |y|
    ensures AlikeBut(Write(a, at, x), Write(b, at, y), marred + Span(at, |x|))
    ensures x == y ==> AlikeBut(Write(a, at, x), Write(b, at, y), marred - Span(at, |x|))
  {
  }

  /** Delivering a hit at once, or leaving a miss to the next flush, comes to the same. */
  lemma SameAfterGet(g: Call, s: Direct, l: Ledger)
    requires Delivered(g) && Along(g.x, s) && SameEnd(g.x, s, l.marred) && Sized(s.remote)
    requires Allowed(s, Read(g.origin, g.key))
    requires g.outcome.Hit? && g.key !in l.doubtful ==> g.bytes == s.remote(g.key)
    ensures SameEnd(g.x', Step(s, Read(g.origin, g.key)),
                    MarredBy(l, g.key, g.outcome.Hit?, Span(g.origin, g.key.size)))
  {
    hide AlikeBut, Span;
    var r, data := Rma(g.origin, g.key), s.remote(g.key);
    assert (s.issued + [r])[..|s.issued|] == s.issued;
    var a, b := Complete(g.x.app, g.x.out, s.remote), Complete(s.app, s.issued, s.remote);
    if g.outcome.Hit? {
      CompleteAfterWrite(g.x.app, g.x.out, s.remote, g.origin, g.bytes);
      AlikeAfterWrite(a, b, l.marred, g.origin, g.bytes, data);
    } else {
      assert g.x'.out[..|g.x.out|] == g.x.out;
      AlikeAfterWrite(a, b, l.marred, g.origin, data, data);
    }
  }

  lemma OneMoreApart(gets: seq<Rma>, g: Rma)
    requires AllApart(gets) && forall h :: h in gets ==> Apart(h, g)
    ensures AllApart(gets + [g])
  {
  }

  lemma AlongAfterGet(g: Call, s: Direct)
    requires Along(g.x, s) && Delivered(g) && Allowed(s, Read(g.origin, g.key))
    ensures Along(g.x', Step(s, Read(g.origin, g.key)))
  {
    hide AllApart;
    OneMoreApart(s.issued, Rma(g.origin, g.key));
  }

  /** All that a get does to the two executions, on values. */
  lemma ReadDone(g: Call, s: Direct, l: Ledger, transparent: bool) returns (l': Ledger)
    requires Follows(g.x, s, l) && Done(g) && Delivered(g) && Sized(s.remote) && Allowed(s, Read(g.origin, g.key))
    ensures Follows(g.x', Step(s, Read(g.origin, g.key)), l')
    ensures EntersGet(l, g.origin, g.key, g.outcome, g.bytes, l', Setup(transparent, g.size), s.remote)
  {
    hide Done, Delivered, Exact, Right, SameEnd, Step, Allowed, Sized, EntersGet, Span;
    var marred := MarredBy(l, g.key, g.outcome.Hit?, Span(g.origin, g.key.size));
    l' := AfterGet(l, g.evicted, Entered(g.key, g.outcome), marred);
    HitRight(g, l);
    LedgerEnters(g, l, l', marred, transparent);
    AlongAfterGet(g, s);
    ExactAfterGet(g, l, marred);
    RightAfterGet(g, l, marred);
    SameAfterGet(g, s, l);
  }

  lemma SameRemote(x: Moment, s: Direct)
    requires Along(x, s)
    ensures x.remote == s.remote && |x.app| == |s.app|
  {
  }

  lemma MayGet(x: Moment, s: Direct, g: Rma)
    requires Along(x, s) && Allowed(s, Read(g.origin, g.key))
    ensures x.remote == s.remote && Fits(g, |x.app|) && forall h :: h in x.out ==> Apart(h, g)
  {
  }

  /** An empty buffer has room for whatever is not larger. */
  lemma EmptyFits(D: seq<Entry>, o: seq<int>, F: seq<int>, items: seq<int>, m: map<Key, int>, M: nat, size: nat)
    requires Core(D, o, F, items, m, M, NOENTRY) && m == map[] && size <= M
    ensures !NoneFits(D, o, size)
  {
    if NoneFits(D, o, size) { SomethingToEvict(D, o, m, M, size); }
  }

  /** One get of the cache, on values. */
  method DoGet(c: Cache, origin: nat, key: Key) returns (outcome: Outcome, bytes: seq<byte>, ghost g: Call)
    requires c.Valid() && c.win.CanGet(origin, key)
    modifies c, c.desc, c.freeEntries, c.tree, c.tree.nodes, c.tree.freeNodes, c.ht, c.ht.table, c.pending, c.mem,
             c.win, c.win.app
    ensures outcome.Exited? ==> old(c.penptr) == PENDING_STACK
    ensures origin + key.size <= c.win.app.Length && bytes == c.win.app[origin..origin + key.size]
    ensures g.origin == origin && g.key == key && g.outcome == outcome && g.bytes == bytes && g.size == c.memSize
    ensures !outcome.Exited? ==> c.Valid() && g.x == old(Now(c)) && g.x' == Now(c) && Done(g) && Delivered(g)
  {
    hide Core, InFlight, IndexInv, GetDone, AllWait, AllApart, NoneFits, Waiting, Insertable, UsedNow, BlocksDone,
         BlocksOf;
    ghost var x := Now(c);
    EntriesInRange(c.ht.hash, c.ht.table[..], x.D, x.m);
    if x.m == map[] && key.size <= c.memSize {
      EmptyFits(x.D, x.o, c.Stack(), c.tree.Items(), x.m, c.memSize, key.size);
    }
    ghost var held, evicted, start := c.ht.Held(), {}, 0;
    var score: Slot -> real := *;
    ghost var choice;
    outcome, evicted, start, choice := c.Get(origin, key, score);
    bytes := c.win.app[origin..origin + key.size];
    g := Call(origin, key, Insertable(c.ht.hash, held, key, start), outcome, bytes, evicted, c.memSize, x, Now(c));
  }

  /** A get: the program exits only if 64 copies are pending; otherwise the cached execution
      follows the direct one on, and the ledger tells the outcome. */
  method ReadStep(c: Cache, origin: nat, key: Key, ghost s: Direct, ghost l: Ledger)
    returns (outcome: Outcome, bytes: seq<byte>, ghost l': Ledger)
    requires Tracks(c, s, l) && Allowed(s, Read(origin, key))
    modifies c, c.desc, c.freeEntries, c.tree, c.tree.nodes, c.tree.freeNodes, c.ht, c.ht.table, c.pending, c.mem,
             c.win, c.win.app
    ensures outcome.Exited? ==> l.copies == PENDING_STACK
    ensures !outcome.Exited? ==> Tracks(c, Step(s, Read(origin, key)), l')
    ensures !outcome.Exited? ==>
              EntersGet(l, origin, key, outcome, bytes, l', Setup(c.transparent, c.memSize), s.remote)
    ensures origin + key.size <= c.win.app.Length && bytes == c.win.app[origin..origin + key.size]
  {
    hide Core, InFlight, IndexInv, Complete, AllWait, AllApart, EntersGet, Waiting, Done, Delivered, Along, Exact,
         Right, SameEnd;
    MayGet(Now(c), s, Rma(origin, key));
    KeyState(Now(c), l, key);
    ghost var g;
    outcome, bytes, g := DoGet(c, origin, key);
    l' := l;
    if !outcome.Exited? {
      l' := ReadDone(g, s, l, c.transparent);
    }
  }

  // ---- flushes ----

  /** The memory will be the same, whichever rank is flushed first. */
  lemma FlushAgrees(x: Moment, x': Moment, s: Direct, rank: int, marred: set<int>)
    requires Along(x, s) && SameEnd(x, s, marred) && Sized(s.remote) && AllApart(x.out)
    requires x'.remote == x.remote && x'.out == OfRank(x.out, rank, false)
    requires x'.app == Complete(x.app, OfRank(x.out, rank, true), x.remote)
    ensures Along(x', Step(s, FlushRank(rank))) && SameEnd(x', Step(s, FlushRank(rank)), marred)
  {
    hide Complete, AllApart, AlikeBut;
    SplitRank(x.app, x.out, rank, s.remote);
    SplitRank(s.app, s.issued, rank, s.remote);
    OfRankApart(s.issued, rank, false);
  }

  /** After the copies of a flush nobody waits, and what was taken early is doubtful. */
  lemma FlushRight(x: Moment, x': Moment, R: seq<Pending>, rank: int, l: Ledger)
    requires Draining(x.D, x'.D, x.m, R, x.mem, x'.mem, x'.app, -1)
    requires x'.app == Complete(x.app, OfRank(x.out, rank, true), x.remote)
    requires InFlight(x.D, x.m, R, x.out) && Sized(x.remote) && AllApart(x.out)
    requires (forall g :: g in x.out ==> Fits(g, |x.app|)) && Exact(x, l)
    requires Right(x.D, x.m, x.mem, x.remote, l.doubtful)
    ensures Right(x'.D, x.m, x'.mem, x.remote, Flushed(l, rank, false).doubtful)
  {
    hide InFlight, Draining, Complete, AllApart, Bytes;
    forall k | k in x.m && k !in Flushed(l, rank, false).doubtful
      ensures 0 <= x.m[k] < |x'.D| && x'.D[x.m[k]].offset + k.size <= |x'.mem|
      ensures Bytes(x'.D, x.m, x'.mem, k) == x.remote(k)
    {
      if Waiting(x.D, x.m, k) {
        DrainedBytes(x.D, x'.D, x.m, R, x.out, x.mem, x'.mem, x'.app, k);
        DueAfterFlush(x.D, x.m, R, x.out, x.app, x'.app, x.remote, rank, k);
        assert k in l.awaited;
      } else {
        DrainedKept(x.D, x'.D, x.m, R, x.mem, x'.mem, x'.app, k);
      }
    }
  }

  lemma FlushExact(x: Moment, x': Moment, R: seq<Pending>, rank: int, l: Ledger)
    requires Draining(x.D, x'.D, x.m, R, x.mem, x'.mem, x'.app, -1) && InFlight(x.D, x.m, R, x.out)
    requires Exact(x, l) && x'.m == x.m && x'.copies == 0
    ensures Exact(x', Flushed(l, rank, false))
  {
    hide InFlight, Drained, Copied, OnlyAwaited, Bounded;
    DrainEnds(x.D, x'.D, x.m, R, x.out, []);
  }

  lemma NothingCached(x: Moment, l: Ledger)
    requires x.m == map[] && x.copies == 0 && l.cached == {} && l.awaited == {} && l.copies == 0
    ensures Exact(x, l) && Right(x.D, x.m, x.mem, x.remote, l.doubtful)
  {
  }

  /** All that a flush does to the two executions, on values. */
  lemma FlushDone(x: Moment, x': Moment, R: seq<Pending>, s: Direct, rank: int, l: Ledger, transparent: bool)
    requires Follows(x, s, l) && Sized(s.remote) && AllApart(x.out) && InFlight(x.D, x.m, R, x.out)
    requires (forall g :: g in x.out ==> Fits(g, |x.app|))
    requires x'.remote == x.remote && x'.out == OfRank(x.out, rank, false) && x'.copies == 0
    requires x'.app == Complete(x.app, OfRank(x.out, rank, true), x.remote)
    requires transparent ==> x'.m == map[]
    requires !transparent ==> x'.m == x.m && Draining(x.D, x'.D, x.m, R, x.mem, x'.mem, x'.app, -1)
    ensures Follows(x', Step(s, FlushRank(rank)), Flushed(l, rank, transparent))
  {
    hide InFlight, Complete, AllApart, Right, Draining, Exact, SameEnd, OfRank, Step;
    assert x.remote == s.remote;
    FlushAgrees(x, x', s, rank, l.marred);
    if transparent {
      NothingCached(x', Flushed(l, rank, transparent));
    } else {
      FlushExact(x, x', R, rank, l);
      FlushRight(x, x', R, rank, l);
    }
  }

  /** A flush, of any rank: the cached execution follows the direct one, and the ledger has what
      was taken too early. */
  method FlushStep(c: Cache, rank: int, ghost s: Direct, ghost l: Ledger)
    requires Tracks(c, s, l)
    modifies c, c.desc, c.freeEntries, c.tree, c.tree.nodes, c.tree.freeNodes, c.ht, c.ht.table, c.pending, c.mem,
             c.win, c.win.app
    ensures Tracks(c, Step(s, FlushRank(rank)), Flushed(l, rank, c.transparent))
  {
    hide Core, InFlight, IndexInv, Complete, Right, AllWait, Draining, Exact, AllApart, SameEnd, Step, OfRank, Sized;
    ghost var x, R := Now(c), c.Records();
    c.Flush(rank);
    FlushDone(x, Now(c), R, s, rank, l, c.transparent);
  }

  // ---- the other operations ----

  method InvalidationStep(c: Cache, ghost s: Direct, ghost l: Ledger)
    requires Tracks(c, s, l)
    modifies c, c.desc, c.freeEntries, c.tree, c.tree.nodes, c.tree.freeNodes, c.ht, c.ht.table, c.pending, c.mem,
             c.win, c.win.app
    ensures Tracks(c, Step(s, Invalidation), NOTHING.(marred := l.marred))
  {
    hide Core, InFlight, IndexInv, Complete, Right, Exact;
    c.Invalidate();
    NothingCached(Now(c), NOTHING.(marred := l.marred));
  }

  /** The application's own stores pass through the gets in progress. */
  lemma StoreKeeps(x: Moment, x': Moment, s: Direct, l: Ledger, at: nat, data: seq<byte>)
    requires Follows(x, s, l) && Sized(s.remote) && Allowed(s, Store(at, data))
    requires x' == x.(app := Write(x.app, at, data))
    ensures Follows(x', Step(s, Store(at, data)), l.(marred := l.marred - Span(at, |data|)))
  {
    hide AlikeBut, Span, Right, Waiting, AllApart;
    CompleteAfterWrite(x.app, x.out, s.remote, at, data);
    CompleteAfterWrite(s.app, s.issued, s.remote, at, data);
    AlikeAfterWrite(Complete(x.app, x.out, s.remote), Complete(s.app, s.issued, s.remote), l.marred, at, data, data);
  }

  method StoreStep(c: Cache, at: nat, data: seq<byte>, ghost s: Direct, ghost l: Ledger)
    requires Tracks(c, s, l) && Allowed(s, Store(at, data))
    modifies c.win.app
    ensures Tracks(c, Step(s, Store(at, data)), l.(marred := l.marred - Span(at, |data|)))
  {
    hide Core, InFlight, IndexInv, Complete, Right, Exact, SameEnd, Step, Span;
    ghost var x := Now(c);
    for i := 0 to |data|
      invariant forall a :: 0 <= a < c.win.app.Length ==>
                  c.win.app[a] == if at <= a < at + i then data[a - at] else x.app[a]
    {
      c.win.app[at + i] := data[i];
    }
    assert c.win.app[..] == Write(x.app, at, data);
    StoreKeeps(x, Now(c), s, l, at, data);
  }

  lemma UpdateKeeps(x: Moment, remote: Remote, s: Direct, l: Ledger)
    requires Follows(x, s, l) && Allowed(s, Update(remote))
    ensures Follows(x.(remote := remote), Step(s, Update(remote)),
                    l.(doubtful := l.doubtful + Outdated(l, s.remote, remote)))
  {
    hide Complete, AllApart, Bytes;
    CompleteUnder(x.app, x.out, s.remote, remote);
    CompleteUnder(s.app, s.issued, s.remote, remote);
    forall k | k in x.m && !Waiting(x.D, x.m, k) && k !in l.doubtful && k !in Outdated(l, s.remote, remote)
      ensures remote(k) == s.remote(k)
    {
      assert k in x.m.Keys;
    }
  }

  /** The remote window changes, and the ledger has what that makes doubtful. */
  method UpdateStep(c: Cache, remote: Remote, ghost s: Direct, ghost l: Ledger)
    requires Tracks(c, s, l) && Allowed(s, Update(remote))
    modifies c.win
    ensures Tracks(c, Step(s, Update(remote)), l.(doubtful := l.doubtful + Outdated(l, s.remote, remote)))
  {
    hide Core, InFlight, IndexInv, Complete, Right, Exact, SameEnd, Step, Outdated;
    ghost var x := Now(c);
    UpdateKeeps(x, remote, s, l);
    c.win.remote := remote;
  }

  // ---- runs ----

  /** The trace is one of the first operations, and the ledgers are its ledgers, from l on. */
  ghost predicate Played(ops: seq<Op>, trace: seq<Event>, ledgers: seq<Ledger>, s: Direct, l: Ledger, setup: Setup) {
    && |trace| <= |ops| && |ledgers| == |trace| + 1 && ledgers[0] == l
    && forall i :: 0 <= i < |trace| ==>
         Enters(ledgers[i], ops[i], trace[i], ledgers[i + 1], setup, DirectRun(s, ops[..i]).remote)
  }

  /** The number of gets since the last flush or invalidation, with n before the first operation. */
  ghost function ReadsSince(n: nat, ops: seq<Op>): nat {
    if ops == [] then n
    else
      match ops[|ops| - 1]
      case Read(_, _) => ReadsSince(n, ops[..|ops| - 1]) + 1
      case FlushRank(_) => 0
      case Invalidation => 0
      case Store(_, _) => ReadsSince(n, ops[..|ops| - 1])
      case Update(_) => ReadsSince(n, ops[..|ops| - 1])
  }

  /** The reads of a trace are its gets, and none exits. */
  ghost predicate ReadsShown(ops: seq<Op>, trace: seq<Event>) {
    && |trace| <= |ops|
    && forall i :: 0 <= i < |trace| ==>
         (trace[i].Got? <==> ops[i].Read?) && (trace[i].Got? ==> !trace[i].outcome.Exited?)
  }

  /** Each hit has delivered what was in the remote window at its time, but for doubtful keys. */
  ghost predicate HitsRight(ops: seq<Op>, trace: seq<Event>, ledgers: seq<Ledger>, s: Direct) {
    && |trace| <= |ops| && |trace| <= |ledgers|
    && forall i :: 0 <= i < |trace| && trace[i].Got? && trace[i].outcome.Hit? ==>
         && ops[i].Read?
         && (ops[i].key !in ledgers[i].doubtful ==> trace[i].bytes == DirectRun(s, ops[..i]).remote(ops[i].key))
  }

  lemma CopiesBound(ops: seq<Op>, n: nat, l: Ledger, e: Event, l': Ledger, start: nat, setup: Setup, remote: Remote)
    requires n < |ops| && Enters(l, ops[n], e, l', setup, remote) && l.copies <= ReadsSince(start, ops[..n])
    ensures l'.copies <= ReadsSince(start, ops[..n + 1])
  {
    assert ops[..n + 1][..n] == ops[..n];
  }

  /** One more event. */
  lemma Continued(ops: seq<Op>, trace: seq<Event>, e: Event, ledgers: seq<Ledger>, l': Ledger, s: Direct, l: Ledger,
                  setup: Setup)
    requires Played(ops, trace, ledgers, s, l, setup) && |trace| < |ops|
    requires Enters(ledgers[|trace|], ops[|trace|], e, l', setup, DirectRun(s, ops[..|trace|]).remote)
    ensures Played(ops, trace + [e], ledgers + [l'], s, l, setup)
  {
    hide Enters, DirectRun;
    var n, trace', ledgers' := |trace|, trace + [e], ledgers + [l'];
    forall i | 0 <= i < |trace'|
      ensures Enters(ledgers'[i], ops[i], trace'[i], ledgers'[i + 1], setup, DirectRun(s, ops[..i]).remote)
    {
      if i < n {
        assert Enters(ledgers[i], ops[i], trace[i], ledgers[i + 1], setup, DirectRun(s, ops[..i]).remote);
      }
    }
  }

  lemma NextStep(s: Direct, ops: seq<Op>, n: nat)
    requires n < |ops|
    ensures DirectRun(s, ops[..n + 1]) == Step(DirectRun(s, ops[..n]), ops[n])
  {
    assert ops[..n + 1][..n] == ops[..n];
  }

  /** One operation: the event it shows, and the next ledger. */
  method Play(c: Cache, op: Op, ghost s: Direct, ghost l: Ledger)
    returns (e: Event, exited: bool, ghost l': Ledger)
    requires Tracks(c, s, l) && Allowed(s, op)
    modifies c, c.desc, c.freeEntries, c.tree, c.tree.nodes, c.tree.freeNodes, c.ht, c.ht.table, c.pending, c.mem,
             c.win, c.win.app
    ensures exited ==> op.Read? && l.copies == PENDING_STACK
    ensures !exited ==>
              Tracks(c, Step(s, op), l') && Enters(l, op, e, l', Setup(c.transparent, c.memSize), s.remote)
  {
    hide Tracks, Allowed, Step, EntersGet;
    e, exited, l' := Silent, false, l;
    match op
    case Read(origin, key) =>
      var outcome, bytes;
      outcome, bytes, l' := ReadStep(c, origin, key, s, l);
      e, exited := Got(outcome, bytes), outcome.Exited?;
    case FlushRank(rank) =>
      FlushStep(c, rank, s, l);
      l' := Flushed(l, rank, c.transparent);
    case Invalidation =>
      InvalidationStep(c, s, l);
      l' := NOTHING.(marred := l.marred);
    case Store(at, data) =>
      StoreStep(c, at, data, s, l);
      l' := l.(marred := l.marred - Span(at, |data|));
    case Update(remote) =>
      UpdateStep(c, remote, s, l);
      l' := l.(doubtful := l.doubtful + Outdated(l, s.remote, remote));
  }

  lemma RunBegins(ops: seq<Op>, s: Direct, l: Ledger, setup: Setup)
    ensures Played(ops, [], [l], s, l, setup)
    ensures ReadsSince(l.copies, ops[..0]) == l.copies && DirectRun(s, ops[..0]) == s
  {
  }

  /** What the ledgers tell of the gets. */
  lemma Shown(ops: seq<Op>, trace: seq<Event>, ledgers: seq<Ledger>, s: Direct, l: Ledger, setup: Setup)
    requires Played(ops, trace, ledgers, s, l, setup)
    ensures ReadsShown(ops, trace) && HitsRight(ops, trace, ledgers, s)
  {
    hide DirectRun;
    forall i | 0 <= i < |trace|
      ensures (trace[i].Got? <==> ops[i].Read?) && (trace[i].Got? ==> !trace[i].outcome.Exited?)
      ensures trace[i].Got? && trace[i].outcome.Hit? && ops[i].key !in ledgers[i].doubtful ==>
                trace[i].bytes == DirectRun(s, ops[..i]).remote(ops[i].key)
    {
      assert Enters(ledgers[i], ops[i], trace[i], ledgers[i + 1], setup, DirectRun(s, ops[..i]).remote);
    }
  }

  // ---- runs without doubt ----

  /** A flush is sound in transparent mode, and else if no key of another rank waits for bytes; a
      change of the remote window is sound if it does not affect what the cache has ready. */
  ghost predicate SoundOp(l: Ledger, op: Op, remote: Remote, transparent: bool) {
    match op
    case Read(_, _) => true
    case FlushRank(rank) => transparent || forall k :: k in l.awaited && k.size > 0 ==> k.rank == rank
    case Invalidation => true
    case Store(_, _) => true
    case Update(remote') => forall k :: k in l.cached && k !in l.awaited ==> remote'(k) == remote(k)
  }

  /** The first n operations were sound. */
  ghost predicate SoundRun(ops: seq<Op>, ledgers: seq<Ledger>, s: Direct, transparent: bool, n: nat)
    requires n <= |ops| && n <= |ledgers|
  {
    forall i :: 0 <= i < n ==> SoundOp(ledgers[i], ops[i], DirectRun(s, ops[..i]).remote, transparent)
  }

  /** Nothing is doubtful, and no address is marred. */
  ghost predicate Undoubted(l: Ledger) { l.doubtful == {} && l.marred == {} }

  ghost predicate NoHits(trace: seq<Event>) {
    forall i :: 0 <= i < |trace| && trace[i].Got? ==> !trace[i].outcome.Hit?
  }

  lemma SoundMeansUndoubted(l: Ledger, op: Op, e: Event, l': Ledger, setup: Setup, remote: Remote)
    requires Undoubted(l) && Enters(l, op, e, l', setup, remote)
    ensures Undoubted(l') <==> SoundOp(l, op, remote, setup.transparent)
  {
    hide Evicts, Entered, Span;
    match op {
      case FlushRank(rank) =>
        assert forall k :: k in Early(l, rank) <==> k in l.awaited && k.size > 0 && k.rank != rank;
      case Update(remote') =>
        assert forall k :: k in Outdated(l, remote, remote') <==>
                 k in l.cached && k !in l.awaited && remote'(k) != remote(k);
      case _ =>
    }
  }

  /** Nothing is ever doubtful in a run exactly if all its flushes and updates are sound. */
  lemma {:induction false} UndoubtedRuns(ops: seq<Op>, trace: seq<Event>, ledgers: seq<Ledger>, s: Direct, l: Ledger,
                                         setup: Setup, n: nat)
    requires Played(ops, trace, ledgers, s, l, setup) && Undoubted(l) && n <= |trace|
    ensures (forall i :: 0 <= i <= n ==> Undoubted(ledgers[i])) <==> SoundRun(ops, ledgers, s, setup.transparent, n)
  {
    hide Enters, Undoubted, SoundOp, DirectRun;
    if n == 0 {
    } else {
      UndoubtedRuns(ops, trace, ledgers, s, l, setup, n - 1);
      var remote := DirectRun(s, ops[..n - 1]).remote;
      assert Enters(ledgers[n - 1], ops[n - 1], trace[n - 1], ledgers[n], setup, remote);
      if Undoubted(ledgers[n - 1]) {
        SoundMeansUndoubted(ledgers[n - 1], ops[n - 1], trace[n - 1], ledgers[n], setup, remote);
      }
    }
  }

  lemma AllAwaitedOn(l: Ledger, op: Op, e: Event, l': Ledger, setup: Setup, remote: Remote)
    requires l.cached <= l.awaited && setup.transparent && Enters(l, op, e, l', setup, remote)
    ensures l'.cached <= l'.awaited && SoundOp(l, op, remote, true) && (e.Got? ==> !e.outcome.Hit?)
  {
    hide Evicts, Entered, Span;
  }

  /** In transparent mode every run is sound, however the remote window changes, for nothing that
      is cached is ready: there are no hits. */
  lemma {:induction false} TransparentIsSound(ops: seq<Op>, trace: seq<Event>, ledgers: seq<Ledger>, s: Direct,
                                              l: Ledger, setup: Setup, n: nat)
    requires Played(ops, trace, ledgers, s, l, setup) && setup.transparent && l.cached <= l.awaited && n <= |trace|
    ensures SoundRun(ops, ledgers, s, true, n) && ledgers[n].cached <= ledgers[n].awaited
    ensures forall i :: 0 <= i < n && trace[i].Got? ==> !trace[i].outcome.Hit?
  {
    hide Enters, SoundOp, DirectRun;
    if n == 0 {
    } else {
      TransparentIsSound(ops, trace, ledgers, s, l, setup, n - 1);
      var remote := DirectRun(s, ops[..n - 1]).remote;
      assert Enters(ledgers[n - 1], ops[n - 1], trace[n - 1], ledgers[n], setup, remote);
      AllAwaitedOn(ledgers[n - 1], ops[n - 1], trace[n - 1], ledgers[n], setup, remote);
    }
  }

  /** The keys of the gets since the last flush or invalidation, or, if all, since the last
      invalidation. */
  function KeysSince(ops: seq<Op>, all: bool): set<Key> {
    if ops == [] then {}
    else
      var before := KeysSince(ops[..|ops| - 1], all);
      match ops[|ops| - 1]
      case Read(_, key) => before + {key}
      case FlushRank(_) => if all then before else {}
      case Invalidation => {}
      case Store(_, _) => before
      case Update(_) => before
  }

  /** What an application can see to by itself: it flushes the one rank to which it has issued gets
      since the last flush, and what it has read since the last invalidation does not change. */
  ghost predicate Careful(ops: seq<Op>, s: Direct) {
    forall i :: 0 <= i < |ops| ==>
      match ops[i]
      case Read(_, _) => true
      case FlushRank(rank) => forall k :: k in KeysSince(ops[..i], false) ==> k.rank == rank
      case Invalidation => true
      case Store(_, _) => true
      case Update(remote) =>
        forall k :: k in KeysSince(ops[..i], true) ==> remote(k) == DirectRun(s, ops[..i]).remote(k)
  }

  lemma KeysNext(ops: seq<Op>, op: Op, all: bool)
    ensures op.Read? ==> KeysSince(ops + [op], all) == KeysSince(ops, all) + {op.key}
    ensures op.FlushRank? && all ==> KeysSince(ops + [op], all) == KeysSince(ops, all)
    ensures op.Store? || op.Update? ==> KeysSince(ops + [op], all) == KeysSince(ops, all)
  {
    assert (ops + [op])[..|ops|] == ops;
  }

  lemma LedgerStep(l: Ledger, op: Op, e: Event, l': Ledger, setup: Setup, remote: Remote, all: set<Key>,
                   recent: set<Key>)
    requires Enters(l, op, e, l', setup, remote) && l.cached <= all && l.awaited <= recent
    ensures op.Read? ==> l'.cached <= all + {op.key} && l'.awaited <= recent + {op.key}
    ensures op.FlushRank? ==> l'.cached <= all && l'.awaited == {}
    ensures op.Invalidation? ==> l'.cached == {} && l'.awaited == {}
    ensures op.Store? || op.Update? ==> l'.cached == l.cached && l'.awaited == l.awaited
  {
    hide Span, Evicts;
    if op.Read? {
      forall k | k in l'.cached ensures k in all + {op.key} {
        assert k in l.cached || k in l'.cached - l.cached;
      }
    }
  }

  lemma {:induction false} LedgerWasRead(ops: seq<Op>, trace: seq<Event>, ledgers: seq<Ledger>, s: Direct, l: Ledger,
                                         setup: Setup, n: nat)
    requires Played(ops, trace, ledgers, s, l, setup) && l.cached == {} && l.awaited == {} && n <= |trace|
    ensures ledgers[n].cached <= KeysSince(ops[..n], true) && ledgers[n].awaited <= KeysSince(ops[..n], false)
  {
    hide DirectRun, Enters, KeysSince;
    if n == 0 {
    } else {
      LedgerWasRead(ops, trace, ledgers, s, l, setup, n - 1);
      var (before, op) := (ops[..n - 1], ops[n - 1]);
      assert ops[..n] == before + [op];
      KeysNext(before, op, true);
      KeysNext(before, op, false);
      var remote := DirectRun(s, before).remote;
      assert Enters(ledgers[n - 1], op, trace[n - 1], ledgers[n], setup, remote);
      LedgerStep(ledgers[n - 1], op, trace[n - 1], ledgers[n], setup, remote, KeysSince(before, true),
                 KeysSince(before, false));
    }
  }

  /** Runs of a careful application are sound in every mode. */
  lemma CarefulIsSound(ops: seq<Op>, trace: seq<Event>, ledgers: seq<Ledger>, s: Direct, l: Ledger, setup: Setup)
    requires Played(ops, trace, ledgers, s, l, setup) && l.cached == {} && l.awaited == {} && Careful(ops, s)
    ensures SoundRun(ops, ledgers, s, setup.transparent, |trace|)
  {
    hide DirectRun, Enters, KeysSince;
    forall i | 0 <= i < |trace|
      ensures SoundOp(ledgers[i], ops[i], DirectRun(s, ops[..i]).remote, setup.transparent)
    {
      LedgerWasRead(ops, trace, ledgers, s, l, setup, i);
    }
  }

  ghost predicate AllUndoubted(ledgers: seq<Ledger>) {
    forall i :: 0 <= i < |ledgers| ==> Undoubted(ledgers[i])
  }

  /** What the soundness of a run means. */
  lemma NoDoubts(ops: seq<Op>, trace: seq<Event>, ledgers: seq<Ledger>, s: Direct, l: Ledger, setup: Setup)
    requires Played(ops, trace, ledgers, s, l, setup) && (setup.transparent ==> l.cached <= l.awaited)
    ensures Undoubted(l) ==> (AllUndoubted(ledgers) <==> SoundRun(ops, ledgers, s, setup.transparent, |trace|))
    ensures setup.transparent ==> SoundRun(ops, ledgers, s, true, |trace|) && NoHits(trace)
  {
    hide Enters, SoundRun, DirectRun, Undoubted;
    if Undoubted(l) { UndoubtedRuns(ops, trace, ledgers, s, l, setup, |trace|); }
    if setup.transparent { TransparentIsSound(ops, trace, ledgers, s, l, setup, |trace|); }
  }

  lemma TransparentAwaits(c: Cache, s: Direct, l: Ledger)
    requires Tracks(c, s, l)
    ensures c.transparent ==> l.cached <= l.awaited
  {
    hide Core, InFlight, IndexInv, Right, SameEnd, Along;
    if c.transparent {
      forall k | k in l.cached ensures k in l.awaited { assert k in c.ht.contents.Keys; }
    }
  }

  lemma RunEnds(c: Cache, s: Direct, l: Ledger)
    requires Tracks(c, s, l)
    ensures SameBut(c.win.app[..], s, l.marred)
  {
    hide Core, InFlight, IndexInv, Exact, Right, SameEnd, Along, SameBut, Sized;
    SameRemote(Now(c), s);
    SameMemory(Now(c), s, l);
  }

  /** Any run, of any length, over any target ranks, with the remote window changing under it.
      The cached execution follows the direct one.  Every hit delivers what is in the remote
      window at that time, unless its key is doubtful, and in the end both memories are the same,
      but where a get is in progress or a doubtful hit has left its bytes.  If all flushes and
      updates are sound, as in transparent mode they are, nothing is doubtful.  The program exits
      only at a get that finds 64 copies pending, after at least 64 gets since the last flush or
      invalidation. */
  method Run(c: Cache, ops: seq<Op>, ghost s: Direct, ghost l: Ledger)
    returns (trace: seq<Event>, exited: bool, ghost ledgers: seq<Ledger>)
    requires Tracks(c, s, l) && RunAllowed(s, ops)
    modifies c, c.desc, c.freeEntries, c.tree, c.tree.nodes, c.tree.freeNodes, c.ht, c.ht.table, c.pending, c.mem,
             c.win, c.win.app
    ensures Played(ops, trace, ledgers, s, l, Setup(c.transparent, c.memSize)) && (exited <==> |trace| < |ops|)
    ensures ReadsShown(ops, trace) && HitsRight(ops, trace, ledgers, s)
    ensures exited ==>
              && ops[|trace|].Read? && ledgers[|trace|].copies == 64
              && ReadsSince(l.copies, ops[..|trace|]) >= 64
    ensures !exited ==>
              && Tracks(c, DirectRun(s, ops), ledgers[|ops|])
              && SameBut(c.win.app[..], DirectRun(s, ops), ledgers[|ops|].marred)
    ensures Undoubted(l) ==> (AllUndoubted(ledgers) <==> SoundRun(ops, ledgers, s, c.transparent, |trace|))
    ensures c.transparent ==> SoundRun(ops, ledgers, s, c.transparent, |trace|) && NoHits(trace)
    ensures !exited && Undoubted(l) && (c.transparent || SoundRun(ops, ledgers, s, c.transparent, |trace|)) ==>
              SameBut(c.win.app[..], DirectRun(s, ops), {})
  {
    hide Tracks, Allowed, Step, ReadsShown, HitsRight, DirectRun, SameBut, Enters, ReadsSince, SoundRun, NoHits;
    TransparentAwaits(c, s, l);
    trace, exited, ledgers := [], false, [l];
    ghost var setup := Setup(c.transparent, c.memSize);
    RunBegins(ops, s, l, setup);
    for i := 0 to |ops|
      invariant |trace| == i && !exited && Played(ops, trace, ledgers, s, l, setup)
      invariant ledgers[i].copies <= ReadsSince(l.copies, ops[..i])
      invariant Tracks(c, DirectRun(s, ops[..i]), ledgers[i])
    {
      ghost var d := DirectRun(s, ops[..i]);
      NextStep(s, ops, i);
      var e, stop;
      ghost var l';
      e, stop, l' := Play(c, ops[i], d, ledgers[i]);
      if stop {
        exited := true;
        Shown(ops, trace, ledgers, s, l, setup);
        NoDoubts(ops, trace, ledgers, s, l, setup);
        return;
      }
      CopiesBound(ops, i, ledgers[i], e, l', l.copies, setup, d.remote);
      Continued(ops, trace, e, ledgers, l', s, l, setup);
      trace, ledgers := trace + [e], ledgers + [l'];
    }
    assert ops[..|ops|] == ops;
    Shown(ops, trace, ledgers, s, l, setup);
    NoDoubts(ops, trace, ledgers, s, l, setup);
    RunEnds(c, DirectRun(s, ops), ledgers[|ops|]);
  }

  // ---- from the beginning ----

  /** The application at the beginning. */
  function Begin(app: seq<byte>, remote: Remote): Direct { Direct(app, [], remote) }

  /** A fresh cache follows a fresh application. */
  lemma RunStarts(c: Cache)
    requires c.Valid() && c.ht.contents == map[] && c.penptr == 0 && c.win.outstanding == []
    ensures Tracks(c, Begin(c.win.app[..], c.win.remote), NOTHING)
  {
  }

  method NewCache(app: array<byte>, remote: Remote, bytes: nat, entries: nat, transparent: bool) returns (c: Cache)
    requires Sized(remote) && entries >= TABLES
    ensures c.Valid() && c.ht.contents == map[] && c.penptr == 0 && c.win.outstanding == []
    ensures c.memSize == Aligned(bytes)
    ensures c.win.remote == remote && c.win.app == app && c.transparent == transparent && c.entries == entries
    ensures fresh(c) && fresh(c.desc) && fresh(c.freeEntries) && fresh(c.tree) && fresh(c.tree.nodes)
    ensures fresh(c.tree.freeNodes) && fresh(c.ht) && fresh(c.ht.table) && fresh(c.pending) && fresh(c.mem)
    ensures fresh(c.win)
  {
    hide Core, InFlight, IndexInv, AllWait, HashOk, Sized;
    var win := new RmaWindow(app, remote);
    c := new Cache(bytes, entries, transparent, win);
  }

  /** The whole story, from the creation of the window and its cache: what any program sees of
      its gets, and what is in its memory in the end, is what it would be without a cache, but for
      what the ledgers call doubtful.  In transparent mode, and in all sound runs, that is
      nothing. */
  method Program(app: array<byte>, remote: Remote, bytes: nat, entries: nat, transparent: bool, ops: seq<Op>)
    returns (trace: seq<Event>, exited: bool, ghost ledgers: seq<Ledger>)
    requires Sized(remote) && entries >= TABLES && RunAllowed(Begin(app[..], remote), ops)
    modifies app
    ensures Played(ops, trace, ledgers, Begin(old(app[..]), remote), NOTHING, Setup(transparent, Aligned(bytes)))
    ensures (exited <==> |trace| < |ops|) && ReadsShown(ops, trace)
    ensures HitsRight(ops, trace, ledgers, Begin(old(app[..]), remote))
    ensures exited ==>
              && ops[|trace|].Read? && ledgers[|trace|].copies == 64
              && ReadsSince(0, ops[..|trace|]) >= 64
    ensures !exited ==> SameBut(app[..], DirectRun(Begin(old(app[..]), remote), ops), ledgers[|ops|].marred)
    ensures AllUndoubted(ledgers) <==> SoundRun(ops, ledgers, Begin(old(app[..]), remote), transparent, |trace|)
    ensures transparent || Careful(ops, Begin(old(app[..]), remote)) ==>
              SoundRun(ops, ledgers, Begin(old(app[..]), remote), transparent, |trace|)
    ensures !exited && (transparent || SoundRun(ops, ledgers, Begin(old(app[..]), remote), transparent, |trace|)) ==>
              SameBut(app[..], DirectRun(Begin(old(app[..]), remote), ops), {})
    ensures transparent ==> NoHits(trace)
  {
    hide Core, InFlight, IndexInv, AllWait, HashOk, Sized, Tracks, RunAllowed, HitsRight, SoundRun, Played, SameBut,
         ReadsSince, DirectRun, ReadsShown, Careful, AllUndoubted, NoHits;
    ghost var s, setup := Begin(app[..], remote), Setup(transparent, Aligned(bytes));
    var c := NewCache(app, remote, bytes, entries, transparent);
    RunStarts(c);
    trace, exited, ledgers := Run(c, ops, s, NOTHING);
    if Careful(ops, s) { CarefulIsSound(ops, trace, ledgers, s, NOTHING, setup); }
  }

  // ---- a flush that is not sound ----

  /** The cache has the given bytes ready for key. */
  ghost predicate Ready(c: Cache, key: Key, bytes: seq<byte>)
    reads c, c.Footprint()
  {
    var D, m := c.desc[..], c.ht.contents;
    && key in m && !Waiting(D, m, key) && 0 <= m[key] < |D| && D[m[key]].offset + key.size <= c.mem.Length
    && Bytes(D, m, c.mem[..], key) == bytes
  }

  /** Bytes taken by the cache before they arrived. */
  lemma TakenEarly(D: seq<Entry>, D': seq<Entry>, m: map<Key, int>, R: seq<Pending>, out: seq<Rma>, mem: seq<byte>,
                   mem': seq<byte>, app: seq<byte>, remote: Remote, rank: int, g: Rma)
    requires InFlight(D, m, R, out) && Sized(remote) && AllApart(out) && (forall h :: h in out ==> Fits(h, |app|))
    requires Draining(D, D', m, R, mem, mem', Complete(app, OfRank(out, rank, true), remote), -1)
    requires Waiting(D, m, g.key) && D[m[g.key]].pending < |R| && R[D[m[g.key]].pending].origin == g.origin
    requires g.key.rank != rank && Fits(g, |app|)
    ensures g.key in m && 0 <= m[g.key] < |D'| && D'[m[g.key]].offset + g.key.size <= |mem'| && !Waiting(D', m, g.key)
    ensures Bytes(D', m, mem', g.key) == app[g.origin..g.origin + g.key.size]
  {
    hide InFlight, Draining, Complete, AllApart, Waiting, OfRank, Sized, Bytes;
    var app' := Complete(app, OfRank(out, rank, true), remote);
    DrainedBytes(D, D', m, R, out, mem, mem', app', g.key);
    DueAfterFlush(D, m, R, out, app, app', remote, rank, g.key);
  }

  /** While a get that was cached waits for its bytes, a flush of another rank makes the cache
      take what the application's memory held before, as these bytes. */
  method FlushTooEarly(c: Cache, origin: nat, key: Key, rank: int) returns (outcome: Outcome)
    requires c.Valid() && !c.transparent && c.win.CanGet(origin, key) && key.rank != rank
    modifies c, c.desc, c.freeEntries, c.tree, c.tree.nodes, c.tree.freeNodes, c.ht, c.ht.table, c.pending, c.mem,
             c.win, c.win.app
    ensures Caches(outcome) ==> c.Valid() && c.penptr == 0 && Ready(c, key, old(c.win.app[origin..origin + key.size]))
    ensures Caches(outcome) ==>
              && c.win.outstanding == OfRank(old(c.win.outstanding) + [Rma(origin, key)], rank, false)
              && c.win.app[..] == Complete(old(c.win.app[..]),
                                           OfRank(old(c.win.outstanding) + [Rma(origin, key)], rank, true),
                                           c.win.remote)
    ensures c.win.remote == old(c.win.remote)
    ensures key !in old(c.ht.contents) && key.size <= c.memSize && old(c.penptr) < PENDING_STACK ==>
              !NoneFits(old(c.desc[..]), old(c.order), key.size) ==> Caches(outcome)
  {
    hide InFlight, IndexInv, Carried, NoneFits, Draining, Core, AllWait, OfRank, Complete, AllApart, MissDone, UsedNow,
         BlocksDone, BlocksOf;
    ghost var app := c.win.app[..];
    ghost var evicted, start;
    var score: Slot -> real := *;
    ghost var choice;
    outcome, evicted, start, choice := c.Get(origin, key, score);
    if !Caches(outcome) {
      return;
    }
    ghost var D, m, R, mem, out := c.desc[..], c.ht.contents, c.Records(), c.mem[..], c.win.outstanding;
    assert Waiting(D, m, key) && R[D[m[key]].pending].origin == origin;
    c.Flush(rank);
    TakenEarly(D, c.desc[..], m, R, out, mem, c.mem[..], app, c.win.remote, rank, Rma(origin, key));
  }

  /** Data that are ready are what a get returns. */
  method GetReady(c: Cache, origin: nat, key: Key, ghost bytes: seq<byte>) returns (outcome: Outcome)
    requires c.Valid() && c.win.CanGet(origin, key) && Ready(c, key, bytes)
    modifies c, c.desc, c.freeEntries, c.tree, c.tree.nodes, c.tree.freeNodes, c.ht, c.ht.table, c.pending, c.mem,
             c.win, c.win.app
    ensures outcome.Hit? && c.win.app[..] == Write(old(c.win.app[..]), origin, bytes)
    ensures c.win.remote == old(c.win.remote)
  {
    hide Core, InFlight, IndexInv, MissDone, AllWait, NoneFits, UsedNow, BlocksDone, BlocksOf;
    ghost var evicted, start;
    var score: Slot -> real := *;
    ghost var choice;
    outcome, evicted, start, choice := c.Get(origin, key, score);
  }

  lemma OtherRank(app: seq<byte>, g: Rma, rank: int, remote: Remote)
    requires g.key.rank != rank
    ensures OfRank([] + [g], rank, true) == [] && OfRank([] + [g], rank, false) == [g]
    ensures Complete(app, OfRank([] + [g], rank, true), remote) == app
  {
    assert [] + [g] == [g];
  }

  function Ones(k: Key): seq<byte> { seq(k.size, _ => 1) }

  /** What FlushSound warns of, on a concrete input: a get from rank 1, a flush of rank 0, and the
      same get again, which is a hit with wrong data. */
  method OtherRankFlushed() returns (second: Outcome, got: byte, wanted: byte)
    ensures second.Hit? && got != wanted
  {
    hide Core, InFlight, IndexInv, AllWait, HashOk, NoneFits, OfRank, Complete, Ready;
    var app := new byte[2](_ => 0);
    var c := NewCache(app, Ones, CACHE_LINE, TABLES, false);
    var key := Key(1, 0, 1);
    EmptyFits(c.desc[..], c.order, c.Stack(), c.tree.Items(), map[], c.memSize, 1);
    OtherRank(app[..], Rma(0, key), 0, Ones);
    assert app[0..1] == [0];
    var first := FlushTooEarly(c, 0, key, 0);
    second := GetReady(c, 1, key, [0]);
    got, wanted := c.win.app[1], c.win.remote(key)[0];
  }
}
