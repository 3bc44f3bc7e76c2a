/** The displacement walk of the cuckoo index: which slots an insertion visits, and why a
    dry run of the walk predicts the real one. */
module CuckooWalk {
  import opened Descriptors

  const TABLES := 4
  const MAX_INSERT := 10

  type Hash = (int, Key) -> int

  /** A hash function of an index with `slots` slots: a bucket for each of the four tables. */
  ghost predicate HashOk(h: Hash, slots: int) {
    forall t, k :: 0 <= t < TABLES ==> 0 <= h(t, k) < slots / TABLES
  }

  const WORD := 0x1_0000_0000_0000_0000

  /** The hash function of the four tables, in 64-bit unsigned arithmetic. */
  function CmpiHash(t: int, k: Key, slots: nat): int
    requires slots >= TABLES
  {
    var a := if t == 0 then 33 else if t == 1 then 5 else if t == 2 then 51 else 19;
    var h0 := 5381;
    var h1 := (h0 * a + k.rank) % WORD;
    var h2 := (h1 * a + k.addr) % WORD;
    var h3 := (h2 * a + k.size) % WORD;
    h3 % (slots / TABLES)
  }

  lemma WordMultiple(x: int, m: int)
    ensures (x + WORD * m) % WORD == x % WORD
  {
  }

  /** Wrapping around early or late comes to the same. */
  lemma WordStep(x: int, a: int, y: int)
    ensures (x % WORD * a + y) % WORD == (x * a + y) % WORD
  {
    var q := x / WORD;
    assert x % WORD * a + y + WORD * (q * a) == x * a + y;
    WordMultiple(x % WORD * a + y, q * a);
  }

  /** The hash is a polynomial in the multiplier of the table, cut to 64 bits. */
  lemma CmpiHashIs(t: int, k: Key, slots: nat)
    requires slots >= TABLES && 0 <= t < TABLES
    ensures var a := [33, 5, 51, 19][t];
            CmpiHash(t, k, slots) ==
            (5381 * a * a * a + k.rank * a * a + k.addr * a + k.size) % WORD % (slots / TABLES)
  {
    var a := [33, 5, 51, 19][t];
    WordStep(5381 * a + k.rank, a, k.addr);
    WordStep((5381 * a + k.rank) * a + k.addr, a, k.size);
    assert ((5381 * a + k.rank) * a + k.addr) * a + k.size ==
           5381 * a * a * a + k.rank * a * a + k.addr * a + k.size;
  }

  lemma CmpiHashOk(slots: nat)
    requires slots >= TABLES
    ensures HashOk((t, k) => CmpiHash(t, k, slots), slots)
  {
  }

  /** The slot of key k in table t. */
  function SlotOf(h: Hash, t: int, k: Key): int { h(t, k) * TABLES + t }

  function NextTable(t: int): int { (t + 1) % TABLES }

  datatype Held = Empty | Holds(key: Key)

  lemma SlotRange(h: Hash, t: int, k: Key, slots: int)
    requires HashOk(h, slots) && 0 <= t < TABLES
    ensures 0 <= SlotOf(h, t, k) < TABLES * (slots / TABLES) <= slots && SlotOf(h, t, k) % TABLES == t
  {
  }

  /** Where the occupant of slot s goes when it is displaced. */
  ghost function Next(h: Hash, K: seq<Held>, s: int): int
    requires 0 <= s < |K| && K[s].Holds?
  {
    SlotOf(h, NextTable(s % TABLES), K[s].key)
  }

  /** The first slot that an insertion writes: a new key tries two tables before it
      displaces anything. */
  ghost function Start(h: Hash, K: seq<Held>, key: Key, t: int): int {
    var s := SlotOf(h, t, key);
    if 0 <= s < |K| && K[s].Empty? then s else SlotOf(h, NextTable(t), key)
  }

  /** How many occupied slots were passed before Start. */
  ghost function Skipped(h: Hash, K: seq<Held>, key: Key, t: int): nat {
    if Start(h, K, key, t) == SlotOf(h, t, key) then 0 else 1
  }

  /** Each slot of p but the last is occupied, and displacing its occupant leads on. */
  ghost predicate Walk(h: Hash, K: seq<Held>, p: seq<int>) {
    && |p| > 0
    && (forall j :: 0 <= j < |p| ==> 0 <= p[j] < |K|)
    && forall j :: 0 <= j < |p| - 1 ==> K[p[j]].Holds? && p[j + 1] == Next(h, K, p[j])
  }

  /** The walk of an insertion that ends in an empty slot within the move bound. */
  ghost predicate InsertWalk(h: Hash, K: seq<Held>, key: Key, t: int, p: seq<int>) {
    && Walk(h, K, p) && p[0] == Start(h, K, key, t) && K[p[|p| - 1]].Empty?
    && |p| - 1 + Skipped(h, K, key, t) <= MAX_INSERT + 1
  }

  ghost predicate Insertable(h: Hash, K: seq<Held>, key: Key, t: int) {
    exists p :: InsertWalk(h, K, key, t, p)
  }

  /** From equal slots the walk goes on equally. */
  lemma {:induction false} WalkRepeats(h: Hash, K: seq<Held>, p: seq<int>, a: nat, b: nat, n: nat)
    requires Walk(h, K, p) && a <= b && b + n < |p| && p[a] == p[b]
    ensures p[a + n] == p[b + n]
  {
    if n == 0 {
    } else {
      WalkRepeats(h, K, p, a, b, n - 1);
    }
  }

  /** A walk that reaches an empty slot never visits a slot twice. */
  lemma WalkNeverRepeats(h: Hash, K: seq<Held>, p: seq<int>)
    requires Walk(h, K, p) && K[p[|p| - 1]].Empty?
    ensures forall a, b :: 0 <= a < b < |p| ==> p[a] != p[b]
  {
    forall a, b | 0 <= a < b < |p| ensures p[a] != p[b] {
      if p[a] == p[b] { WalkRepeats(h, K, p, a, b, |p| - 1 - b); }
    }
  }

  lemma WalkSlots(h: Hash, K: seq<Held>, p: seq<int>)
    requires Walk(h, K, p) && K[p[|p| - 1]].Empty?
    ensures |p| > 0 && forall i :: 0 <= i < |p| ==> 0 <= p[i] < |K| && (K[p[i]].Empty? <==> i == |p| - 1)
    ensures forall a, b :: 0 <= a < b < |p| ==> p[a] != p[b]
  {
    WalkNeverRepeats(h, K, p);
  }

  lemma InsertWalkSlots(h: Hash, K: seq<Held>, key: Key, t: int, p: seq<int>)
    requires InsertWalk(h, K, key, t, p)
    ensures Walk(h, K, p) && |p| > 0 && K[p[|p| - 1]].Empty? && forall i :: 0 <= i < |p| ==> 0 <= p[i] < |K|
  {
  }

  /** Walks from the same slot agree, as far as both go. */
  lemma {:induction false} WalksAgree(h: Hash, K: seq<Held>, p: seq<int>, q: seq<int>, n: nat)
    requires Walk(h, K, p) && Walk(h, K, q) && p[0] == q[0] && n < |p| && n < |q|
    ensures p[n] == q[n]
  {
    if n == 0 {
    } else {
      WalksAgree(h, K, p, q, n - 1);
    }
  }

  /** A walk to an occupied slot that has used up the move bound: the insertion fails. */
  lemma TooLong(h: Hash, K: seq<Held>, key: Key, t: int, p: seq<int>)
    requires Walk(h, K, p) && p[0] == Start(h, K, key, t) && K[p[|p| - 1]].Holds?
    requires |p| - 1 + Skipped(h, K, key, t) == MAX_INSERT + 1
    ensures !Insertable(h, K, key, t)
  {
    forall q | InsertWalk(h, K, key, t, q) ensures false {
      WalksAgree(h, K, p, q, |q| - 1);
    }
  }

  /** The first visit to the last slot. */
  lemma {:induction false} FirstVisit(p: seq<int>) returns (j: nat)
    requires |p| > 0
    ensures j < |p| && p[j] == p[|p| - 1] && forall i :: 0 <= i < j ==> p[i] != p[j]
  {
    j := 0;
    while p[j] != p[|p| - 1]
      invariant j < |p| && forall i :: 0 <= i < j ==> p[i] != p[|p| - 1]
      decreases |p| - j
    {
      j := j + 1;
    }
  }

  lemma FirstSlotEmptied(h: Hash, K: seq<Held>, key: Key, t: int)
    requires 0 <= SlotOf(h, t, key) < |K|
    ensures Insertable(h, K[SlotOf(h, t, key) := Empty], key, t)
  {
    assert InsertWalk(h, K[SlotOf(h, t, key) := Empty], key, t, [SlotOf(h, t, key)]);
  }

  /** Emptying any slot that a walk has come to makes the insertion succeed there at the
      latest: this is what the victim named by the dry run is for. */
  lemma EmptiedSlotIsReached(h: Hash, K: seq<Held>, key: Key, t: int, p: seq<int>)
    requires Walk(h, K, p) && p[0] == Start(h, K, key, t) && 0 <= SlotOf(h, t, key) < |K|
    requires |p| - 1 + Skipped(h, K, key, t) <= MAX_INSERT + 1
    ensures Insertable(h, K[p[|p| - 1] := Empty], key, t)
  {
    var v := p[|p| - 1];
    var K' := K[v := Empty];
    if v == SlotOf(h, t, key) {
      FirstSlotEmptied(h, K, key, t);
    } else {
      var j := FirstVisit(p);
      var q := p[..j + 1];
      assert Start(h, K', key, t) == Start(h, K, key, t);
      assert Walk(h, K', q);
      assert InsertWalk(h, K', key, t, q);
    }
  }

  /** An insertion that would succeed still does when any one slot is emptied first. */
  lemma RemovalKeepsInsertable(h: Hash, K: seq<Held>, key: Key, t: int, v: int)
    requires Insertable(h, K, key, t) && 0 <= v < |K| && 0 <= SlotOf(h, t, key) < |K|
    ensures Insertable(h, K[v := Empty], key, t)
  {
    var p :| InsertWalk(h, K, key, t, p);
    if v == SlotOf(h, t, key) {
      FirstSlotEmptied(h, K, key, t);
    } else if j :| 0 <= j < |p| && p[j] == v {
      assert p[..j + 1][j] == v;
      EmptiedSlotIsReached(h, K, key, t, p[..j + 1]);
    } else {
      var K' := K[v := Empty];
      assert Start(h, K', key, t) == Start(h, K, key, t);
      assert InsertWalk(h, K', key, t, p);
    }
  }

  // ---- where displaced entries go ----

  /** From each slot of a walk the occupant goes to its own bucket in the next table. */
  lemma WalkStep(h: Hash, K: seq<Held>, p: seq<int>, j: nat)
    requires Walk(h, K, p) && j + 1 < |p|
    ensures (p[j + 1] - p[j]) % 4 == 1
    ensures p[j + 1] / 4 == h(p[j + 1] % 4, K[p[j]].key)
  {
  }

  /** A new key goes to its bucket in the start table, or, if that is occupied, in the next. */
  lemma WalkStarts(h: Hash, K: seq<Held>, key: Key, t: int)
    requires 0 <= t < TABLES && 0 <= SlotOf(h, t, key) < |K|
    ensures var s := Start(h, K, key, t);
            && s / 4 == h(s % 4, key)
            && (s - t) % 4 == if K[4 * h(t, key) + t].Empty? then 0 else 1
  {
  }

  lemma OnlySlot(h: Hash, t: int, k: Key, slots: int)
    requires HashOk(h, slots) && 4 <= slots < 8 && 0 <= t < 4
    ensures SlotOf(h, t, k) == t
  {
  }

  /** A walk that goes round the four slots. */
  lemma GoesRound(h: Hash, K: seq<Held>, key: Key, t: int, p: seq<int>)
    requires HashOk(h, |K|) && 4 <= |K| < 8 && 0 <= t < 4 && K[t].Holds? && 1 <= |p| <= 3
    requires forall j :: 0 <= j < |p| ==> p[j] == (t + 1 + j) % 4 && (K[p[j]].Empty? <==> j == |p| - 1)
    ensures Insertable(h, K, key, t)
  {
    OnlySlot(h, t, key, |K|);
    OnlySlot(h, NextTable(t), key, |K|);
    forall j | 0 <= j < |p| - 1 ensures K[p[j]].Holds? && p[j + 1] == Next(h, K, p[j]) {
      OnlySlot(h, NextTable(p[j]), K[p[j]].key, |K|);
    }
    assert InsertWalk(h, K, key, t, p);
  }

  lemma FindsEmpty(h: Hash, K: seq<Held>, key: Key, t: int, s: int)
    requires HashOk(h, |K|) && 4 <= |K| < 8 && 0 <= t < 4 && K[t].Holds? && 0 <= s < 4 && K[s].Empty?
    ensures Insertable(h, K, key, t)
  {
    hide Insertable;
    var (a, b, c) := ((t + 1) % 4, (t + 2) % 4, (t + 3) % 4);
    GoesRound(h, K, key, t, if K[a].Empty? then [a] else if K[b].Empty? then [a, b] else [a, b, c]);
  }

  /** With one bucket a table, an insertion succeeds exactly if one of the four slots is empty. */
  lemma OneBucketEach(h: Hash, K: seq<Held>, key: Key, t: int)
    requires HashOk(h, |K|) && 4 <= |K| < 8 && 0 <= t < 4
    ensures Insertable(h, K, key, t) <==> exists s :: 0 <= s < 4 && K[s].Empty?
  {
    hide SlotOf;
    if p :| InsertWalk(h, K, key, t, p) {
      var s := p[|p| - 1];
      OnlySlot(h, t, key, |K|);
      OnlySlot(h, NextTable(t), key, |K|);
      if |p| > 1 { OnlySlot(h, NextTable(p[|p| - 2] % 4), K[p[|p| - 2]].key, |K|); }
      assert 0 <= s < 4;
    }
    if s :| 0 <= s < 4 && K[s].Empty? {
      if K[t].Empty? {
        OnlySlot(h, t, key, |K|);
        assert InsertWalk(h, K, key, t, [t]);
      } else {
        FindsEmpty(h, K, key, t, s);
      }
    }
  }
}
