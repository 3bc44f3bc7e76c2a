/** The index of the cached entries: four cuckoo hash tables interleaved in one array. */
module CuckooIndex {
  import opened Descriptors
  import opened Sequences
  import opened CuckooWalk

  /** A slot is occupied when lasthit > 0; index then names the entry's descriptor. */
  datatype Slot = Slot(lasthit: nat, index: int)

  ghost predicate Occupied(T: seq<Slot>, s: int) {
    0 <= s < |T| && T[s].lasthit > 0
  }

  /** The index T over the descriptors D holds exactly the entries of m. */
  ghost predicate IndexInv(h: Hash, T: seq<Slot>, D: seq<Entry>, m: map<Key, int>) {
    && HashOk(h, |T|)
    && (forall k :: k in m ==> 0 <= m[k] < |D| && D[m[k]].getInfo == k
                               && Occupied(T, D[m[k]].htindex) && T[D[m[k]].htindex].index == m[k])
    && forall s :: Occupied(T, s) ==>
         var e := T[s].index;
         0 <= e < |D| && D[e].htindex == s && D[e].getInfo in m && m[D[e].getInfo] == e
         && SlotOf(h, s % TABLES, D[e].getInfo) == s
  }

  /** What each slot holds, apart from where and since when. */
  ghost function Keys(T: seq<Slot>, D: seq<Entry>): (K: seq<Held>)
    ensures |K| == |T|
    ensures forall s :: 0 <= s < |T| ==>
              K[s] == if T[s].lasthit > 0 && 0 <= T[s].index < |D| then Holds(D[T[s].index].getInfo) else Empty
  {
    seq(|T|, s requires 0 <= s < |T| =>
      if T[s].lasthit > 0 && 0 <= T[s].index < |D| then Holds(D[T[s].index].getInfo) else Empty)
  }

  /** Slot q takes over the entry in hand, v; the entry it held, if any, is in hand next. */
  lemma Displace(h: Hash, T: seq<Slot>, D: seq<Entry>, m: map<Key, int>, v: Slot, q: int)
    requires IndexInv(h, T, D, m) && v.lasthit > 0 && 0 <= v.index < |D| && D[v.index].getInfo !in m
    requires 0 <= q < |T| && SlotOf(h, q % TABLES, D[v.index].getInfo) == q
    ensures T[q].lasthit > 0 ==>
              var w := T[q].index; 0 <= w < |D| && w != v.index && D[w].getInfo in m && m[D[w].getInfo] == w
    ensures IndexInv(h, T[q := v], D[v.index := D[v.index].(htindex := q)],
                     (if T[q].lasthit > 0 then m - {D[T[q].index].getInfo} else m)[D[v.index].getInfo := v.index])
  {
  }

  lemma RemoveKey(h: Hash, T: seq<Slot>, D: seq<Entry>, m: map<Key, int>, k: Key)
    requires IndexInv(h, T, D, m) && k in m
    ensures Occupied(T, D[m[k]].htindex)
    ensures var s := D[m[k]].htindex; IndexInv(h, T[s := T[s].(lasthit := 0)], D, m - {k})
    ensures var s := D[m[k]].htindex; Keys(T[s := T[s].(lasthit := 0)], D) == Keys(T, D)[s := Empty]
  {
  }

  // ---- how many entries there can be ----

  /** The slots in use by the keys ks. */
  ghost function SlotsOf(D: seq<Entry>, m: map<Key, int>, ks: set<Key>): set<int>
    requires forall k :: k in ks ==> k in m && 0 <= m[k] < |D|
  {
    set k | k in ks :: D[m[k]].htindex
  }

  lemma {:induction false} SlotsDistinct(h: Hash, T: seq<Slot>, D: seq<Entry>, m: map<Key, int>, ks: set<Key>)
    requires IndexInv(h, T, D, m) && ks <= m.Keys
    ensures |SlotsOf(D, m, ks)| == |ks|
    decreases ks
  {
    if ks == {} {
    } else {
      var k :| k in ks;
      SlotsDistinct(h, T, D, m, ks - {k});
      var s := D[m[k]].htindex;
      assert SlotsOf(D, m, ks) == SlotsOf(D, m, ks - {k}) + {s};
      assert s !in SlotsOf(D, m, ks - {k});
    }
  }

  /** No more entries than usable slots, and one fewer when a usable slot is empty. */
  lemma IndexCapacity(h: Hash, T: seq<Slot>, D: seq<Entry>, m: map<Key, int>)
    requires IndexInv(h, T, D, m)
    ensures |m| <= TABLES * (|T| / TABLES)
    ensures forall s :: 0 <= s < TABLES * (|T| / TABLES) && !Occupied(T, s) ==> |m| < TABLES * (|T| / TABLES)
  {
    var n := TABLES * (|T| / TABLES);
    var S := SlotsOf(D, m, m.Keys);
    SlotsDistinct(h, T, D, m, m.Keys);
    forall s | s in S ensures 0 <= s < n && Occupied(T, s) {
      var k :| k in m && D[m[k]].htindex == s;
      SlotRange(h, s % TABLES, k, |T|);
    }
    RangeSize(S, n);
    forall s | 0 <= s < n && !Occupied(T, s) ensures |m| < n {
      RangeSize(S + {s}, n);
    }
  }

  lemma WalkInRange(h: Hash, K: seq<Held>, key: Key, t: int, p: seq<int>, n: nat)
    requires HashOk(h, n) && 0 <= t < TABLES && Walk(h, K, p) && p[0] == Start(h, K, key, t)
    ensures 0 <= p[|p| - 1] < TABLES * (n / TABLES)
  {
    if |p| == 1 {
      SlotRange(h, t, key, n);
      SlotRange(h, NextTable(t), key, n);
    } else {
      var s := p[|p| - 2];
      SlotRange(h, NextTable(s % TABLES), K[s].key, n);
    }
  }

  /** A successful insertion has an empty usable slot to end in. */
  lemma InsertableHasRoom(h: Hash, T: seq<Slot>, D: seq<Entry>, m: map<Key, int>, key: Key, t: int)
    requires IndexInv(h, T, D, m) && 0 <= t < TABLES && Insertable(h, Keys(T, D), key, t)
    ensures |m| < TABLES * (|T| / TABLES)
  {
    var K := Keys(T, D);
    var p :| InsertWalk(h, K, key, t, p);
    var s := p[|p| - 1];
    WalkInRange(h, K, key, t, p, |T|);
    assert !Occupied(T, s) by { assert K[s].Empty?; }
    IndexCapacity(h, T, D, m);
  }

  // ---- when entries were used ----

  /** When the entry for k was used last; 0 says that there is none. */
  ghost function LastUse(T: seq<Slot>, D: seq<Entry>, m: map<Key, int>, k: Key): nat {
    if k in m && 0 <= m[k] < |D| && 0 <= D[m[k]].htindex < |T| then T[D[m[k]].htindex].lasthit else 0
  }

  /** Key was used now; every other entry that is still there was used last when it was before. */
  ghost predicate UsedNow(T: seq<Slot>, D: seq<Entry>, m: map<Key, int>, T': seq<Slot>, D': seq<Entry>,
                          m': map<Key, int>, key: Key, now: nat)
  {
    && (forall k :: k in m' ==> k == key || k in m)
    && forall k :: k in m' ==> LastUse(T', D', m', k) == if k == key then now else LastUse(T, D, m, k)
  }

  /** All entries that are still there were used last when they were before. */
  ghost predicate SameUse(T: seq<Slot>, D: seq<Entry>, m: map<Key, int>, T': seq<Slot>, D': seq<Entry>,
                          m': map<Key, int>)
  {
    (forall k :: k in m' ==> k in m) && forall k :: k in m' ==> LastUse(T', D', m', k) == LastUse(T, D, m, k)
  }

  lemma SameUseThen(T: seq<Slot>, D: seq<Entry>, m: map<Key, int>, T1: seq<Slot>, D1: seq<Entry>, m1: map<Key, int>,
                    T2: seq<Slot>, D2: seq<Entry>, m2: map<Key, int>, key: Key, now: nat)
    requires SameUse(T, D, m, T1, D1, m1)
    ensures UsedNow(T1, D1, m1, T2, D2, m2, key, now) ==> UsedNow(T, D, m, T2, D2, m2, key, now)
    ensures SameUse(T1, D1, m1, T2, D2, m2) ==> SameUse(T, D, m, T2, D2, m2)
  {
  }

  lemma UnusedNow(T: seq<Slot>, D: seq<Entry>, m: map<Key, int>, T': seq<Slot>, D': seq<Entry>, m': map<Key, int>,
                  key: Key, now: nat)
    requires SameUse(T, D, m, T', D', m') && key !in m
    ensures UsedNow(T, D, m, T', D', m', key, now)
  {
  }

  lemma UsedTwice(T: seq<Slot>, D: seq<Entry>, m: map<Key, int>, T1: seq<Slot>, D1: seq<Entry>, m1: map<Key, int>,
                  T2: seq<Slot>, D2: seq<Entry>, m2: map<Key, int>, key: Key, now: nat)
    requires UsedNow(T, D, m, T1, D1, m1, key, now) && UsedNow(T1, D1, m1, T2, D2, m2, key, now)
    ensures UsedNow(T, D, m, T2, D2, m2, key, now)
  {
  }

  /** Slots of entries are all that matters. */
  lemma UseFrame(T: seq<Slot>, D: seq<Entry>, D': seq<Entry>, m: map<Key, int>)
    requires |D'| == |D| && forall e :: 0 <= e < |D| ==> D'[e].htindex == D[e].htindex
    ensures SameUse(T, D, m, T, D', m)
  {
  }

  lemma LookupUses(h: Hash, T: seq<Slot>, T': seq<Slot>, D: seq<Entry>, m: map<Key, int>, key: Key, now: nat)
    requires IndexInv(h, T, D, m)
    requires key in m ==> T' == T[D[m[key]].htindex := Slot(now, m[key])]
    requires key !in m ==> T' == T
    ensures UsedNow(T, D, m, T', D, m, key, now)
  {
  }

  lemma RemovalKeepsUse(h: Hash, T: seq<Slot>, T': seq<Slot>, D: seq<Entry>, D': seq<Entry>, m: map<Key, int>, v: int)
    requires IndexInv(h, T, D, m) && 0 <= v < |D| == |D'| && D[v].getInfo in m && m[D[v].getInfo] == v
    requires 0 <= D[v].htindex < |T| && T' == T[D[v].htindex := T[D[v].htindex].(lasthit := 0)]
    requires forall e :: 0 <= e < |D| ==> D'[e].htindex == D[e].htindex
    ensures SameUse(T, D, m, T', D', m - {D[v].getInfo})
  {
  }

  /** The slots once the insertion has written p[0..j]: the new one comes first, and each that it
      pushes out comes one further. */
  ghost function Pushed(T: seq<Slot>, p: seq<int>, first: Slot, j: nat): (T': seq<Slot>)
    requires j < |p| && forall i :: 0 <= i < |p| ==> 0 <= p[i] < |T|
    ensures |T'| == |T|
  {
    if j == 0 then T[p[0] := first] else Pushed(T, p, first, j - 1)[p[j] := T[p[j - 1]]]
  }

  lemma {:induction false} PushedAt(T: seq<Slot>, p: seq<int>, first: Slot, j: nat)
    requires j < |p| && forall i :: 0 <= i < |p| ==> 0 <= p[i] < |T|
    requires forall a, b :: 0 <= a < b < |p| ==> p[a] != p[b]
    ensures var T' := Pushed(T, p, first, j);
            && T'[p[0]] == first && (forall i :: 0 <= i < j ==> T'[p[i + 1]] == T[p[i]])
            && forall s :: 0 <= s < |T| && (forall i :: 0 <= i <= j ==> p[i] != s) ==> T'[s] == T[s]
  {
    if j == 0 {
    } else {
      PushedAt(T, p, first, j - 1);
    }
  }

  /** The slot of an entry tells when it was used. */
  lemma UseAt(h: Hash, T: seq<Slot>, D: seq<Entry>, m: map<Key, int>, s: int, k: Key)
    requires IndexInv(h, T, D, m) && Occupied(T, s) && k in m && T[s].index == m[k]
    ensures LastUse(T, D, m, k) == T[s].lasthit
  {
  }

  lemma UseWhere(h: Hash, T: seq<Slot>, D: seq<Entry>, m: map<Key, int>, k: Key) returns (s: int)
    requires IndexInv(h, T, D, m) && k in m
    ensures Occupied(T, s) && T[s].index == m[k] && LastUse(T, D, m, k) == T[s].lasthit
  {
    s := D[m[k]].htindex;
  }

  /** An insertion moves entries together with their times of use. */
  lemma InsertionUses(h: Hash, T: seq<Slot>, D: seq<Entry>, m: map<Key, int>, T': seq<Slot>, D': seq<Entry>, key: Key,
                      entry: int, now: nat, p: seq<int>)
    requires IndexInv(h, T, D, m) && IndexInv(h, T', D', m[key := entry]) && key !in m && now > 0
    requires Walk(h, Keys(T, D), p) && Keys(T, D)[p[|p| - 1]].Empty? && T[p[|p| - 1]].lasthit == 0
    requires T' == Pushed(T, p, Slot(now, entry), |p| - 1)
    ensures UsedNow(T, D, m, T', D', m[key := entry], key, now)
  {
    hide Walk, IndexInv, Pushed, LastUse, Keys;
    var m' := m[key := entry];
    WalkSlots(h, Keys(T, D), p);
    PushedAt(T, p, Slot(now, entry), |p| - 1);
    assert T'[p[0]] == Slot(now, entry);
    UseAt(h, T', D', m', p[0], key);
    forall k | k in m ensures LastUse(T', D', m', k) == LastUse(T, D, m, k) {
      var s := UseWhere(h, T, D, m, k);
      if i :| 0 <= i < |p| && p[i] == s {
        assert T'[p[i + 1]] == T[p[i]];
        UseAt(h, T', D', m', p[i + 1], k);
      } else {
        UseAt(h, T', D', m', s, k);
      }
    }
  }

  // ---- one run of the insertion loop ----

  /** D' is D with `entry` filled in for key, and other entries moved to other slots. */
  ghost predicate Filled(D: seq<Entry>, D': seq<Entry>, key: Key, entry: int) {
    && |D'| == |D|
    && forall x :: 0 <= x < |D| ==>
         D'[x] == (if x == entry then D[x].(getInfo := key) else D[x]).(htindex := D'[x].htindex)
  }

  /** The insertion of key has written p[0..j], and has the former occupant v of p[j] in
      hand; m is what the index holds now, and M what it will hold. */
  ghost predicate Displacing(h: Hash, T0: seq<Slot>, D0: seq<Entry>, T: seq<Slot>, D: seq<Entry>,
                             m: map<Key, int>, M: map<Key, int>, key: Key, entry: int, p: seq<int>, j: nat, v: Slot)
  {
    && IndexInv(h, T, D, m) && Filled(D0, D, key, entry) && |T| == |T0|
    && Walk(h, Keys(T0, D0), p) && Keys(T0, D0)[p[|p| - 1]].Empty? && j < |p| && v == T0[p[j]]
    && (forall i :: 0 <= i < |p| ==> T0[p[i]].lasthit > 0 ==> 0 <= T0[p[i]].index < |D0| && T0[p[i]].index != entry)
    && (forall i :: j < i < |p| ==> T[p[i]] == T0[p[i]])
    && (if v.lasthit > 0 then D[v.index].getInfo !in m && M == m[D[v.index].getInfo := v.index] else M == m)
  }

  /** The first write: the new entry goes into the first slot of the walk. */
  lemma FirstWrite(h: Hash, T: seq<Slot>, D: seq<Entry>, m: map<Key, int>, key: Key, entry: int, t: int, p: seq<int>,
                   now: nat)
    returns (m': map<Key, int>)
    requires IndexInv(h, T, D, m) && key !in m && 0 <= entry < |D| && (forall k :: k in m ==> m[k] != entry)
    requires InsertWalk(h, Keys(T, D), key, t, p) && 0 <= t < TABLES && now > 0
    ensures Displacing(h, T, D, T[p[0] := Slot(now, entry)], D[entry := D[entry].(getInfo := key, htindex := p[0])],
                       m', m[key := entry], key, entry, p, 0, T[p[0]])
  {
    var q := p[0];
    var D1 := D[entry := D[entry].(getInfo := key)];
    assert IndexInv(h, T, D1, m);
    SlotRange(h, t, key, |T|);
    SlotRange(h, NextTable(t), key, |T|);
    Displace(h, T, D1, m, Slot(now, entry), q);
    m' := (if T[q].lasthit > 0 then m - {D[T[q].index].getInfo} else m)[key := entry];
    assert D[entry := D[entry].(getInfo := key, htindex := q)] == D1[entry := D1[entry].(htindex := q)];
    WalkNeverRepeats(h, Keys(T, D), p);
    assert forall i :: 0 <= i < |p| ==> T[p[i]].lasthit > 0 ==> Occupied(T, p[i]);
    assert T[q].lasthit > 0 ==> Occupied(T, q);
  }

  /** The first slot written, as the code finds it. */
  lemma StartIs(h: Hash, T: seq<Slot>, D: seq<Entry>, m: map<Key, int>, key: Key, t: int, p: seq<int>)
    requires IndexInv(h, T, D, m) && 0 <= t < TABLES && InsertWalk(h, Keys(T, D), key, t, p)
    ensures 0 <= SlotOf(h, t, key) < |T| && 0 <= SlotOf(h, NextTable(t), key) < |T|
    ensures Skipped(h, Keys(T, D), key, t) == if T[SlotOf(h, t, key)].lasthit > 0 then 1 else 0
    ensures p[0] == SlotOf(h, if T[SlotOf(h, t, key)].lasthit > 0 then NextTable(t) else t, key)
    ensures p[0] % TABLES == if T[SlotOf(h, t, key)].lasthit > 0 then NextTable(t) else t
  {
    SlotRange(h, t, key, |T|);
    SlotRange(h, NextTable(t), key, |T|);
    if T[SlotOf(h, t, key)].lasthit > 0 { assert Occupied(T, SlotOf(h, t, key)); }
  }

  /** The move bound is never what ends the loop. */
  lemma BoundSuffices(h: Hash, T0: seq<Slot>, D0: seq<Entry>, T: seq<Slot>, D: seq<Entry>, m: map<Key, int>,
                      M: map<Key, int>,
                      key: Key, entry: int, t: int, p: seq<int>, j: nat, v: Slot)
    requires Displacing(h, T0, D0, T, D, m, M, key, entry, p, j, v) && InsertWalk(h, Keys(T0, D0), key, t, p)
    requires v.lasthit == 0 || j + Skipped(h, Keys(T0, D0), key, t) > MAX_INSERT
    ensures m == M && IndexInv(h, T, D, m) && Filled(D0, D, key, entry)
    ensures j == |p| - 1 && T0[p[j]].lasthit == 0
  {
  }

  /** Every further write: the entry in hand goes where the walk leads. */
  lemma NextWrite(h: Hash, T0: seq<Slot>, D0: seq<Entry>, T: seq<Slot>, D: seq<Entry>, m: map<Key, int>,
                  M: map<Key, int>,
                  key: Key, entry: int, p: seq<int>, j: nat, v: Slot)
    returns (m': map<Key, int>)
    requires Displacing(h, T0, D0, T, D, m, M, key, entry, p, j, v) && v.lasthit > 0
    ensures 0 <= v.index < |D| && j + 1 < |p| && 0 <= p[j + 1] < |T|
    ensures p[j + 1] == SlotOf(h, NextTable(p[j] % TABLES), D[v.index].getInfo)
    ensures p[j + 1] % TABLES == NextTable(p[j] % TABLES) && v == T0[p[j]]
    ensures Displacing(h, T0, D0, T[p[j + 1] := v], D[v.index := D[v.index].(htindex := p[j + 1])],
                       m', M, key, entry, p, j + 1, T[p[j + 1]])
  {
    var k := D[v.index].getInfo;
    assert Keys(T0, D0)[p[j]] == Holds(k);
    var q := p[j + 1];
    SlotRange(h, NextTable(p[j] % TABLES), k, |T|);
    Displace(h, T, D, m, v, q);
    m' := (if T[q].lasthit > 0 then m - {D[T[q].index].getInfo} else m)[k := v.index];
    WalkNeverRepeats(h, Keys(T0, D0), p);
    if T[q].lasthit > 0 { assert Occupied(T, q); }
  }

  /** Looking an entry up marks its slot as hit, which changes nothing else. */
  lemma TouchKeeps(h: Hash, T: seq<Slot>, D: seq<Entry>, m: map<Key, int>, s: int, now: nat)
    requires IndexInv(h, T, D, m) && Occupied(T, s) && now > 0
    ensures IndexInv(h, T[s := T[s].(lasthit := now)], D, m)
    ensures Keys(T[s := T[s].(lasthit := now)], D) == Keys(T, D)
  {
  }

  /** What one probe of a lookup tells. */
  lemma Probe(h: Hash, T: seq<Slot>, D: seq<Entry>, m: map<Key, int>, key: Key, t: int)
    requires IndexInv(h, T, D, m) && 0 <= t < TABLES
    ensures var s := SlotOf(h, t, key);
      && 0 <= s < |T| && (T[s].lasthit > 0 ==> 0 <= T[s].index < |D|)
      && if T[s].lasthit > 0 && D[T[s].index].getInfo == key
         then key in m && m[key] == T[s].index && D[m[key]].htindex == s
         else key in m ==> D[m[key]].htindex != s
  {
  }

  lemma ProbedAll(h: Hash, T: seq<Slot>, D: seq<Entry>, m: map<Key, int>, key: Key)
    requires IndexInv(h, T, D, m)
    requires key in m ==> forall t :: 0 <= t < TABLES ==> D[m[key]].htindex != SlotOf(h, t, key)
    ensures key !in m
  {
  }

  lemma EntryOf(h: Hash, T: seq<Slot>, D: seq<Entry>, m: map<Key, int>, key: Key)
    requires IndexInv(h, T, D, m) && key in m
    ensures 0 <= m[key] < |D| && D[m[key]].getInfo == key && Occupied(T, D[m[key]].htindex)
    ensures T[D[m[key]].htindex].index == m[key]
  {
  }

  // ---- the dry run ----

  /** Entry e is in the index, and key can be inserted once it is not. */
  ghost predicate Removable(h: Hash, T: seq<Slot>, D: seq<Entry>, m: map<Key, int>, key: Key, t: int, e: int) {
    && 0 <= e < |D| && D[e].getInfo in m && m[D[e].getInfo] == e && Occupied(T, D[e].htindex)
    && Insertable(h, Keys(T, D)[D[e].htindex := Empty], key, t)
  }

  /** The dry run has followed the walk p to the slot holding victim, and has noted toevict. */
  ghost predicate Scanning(h: Hash, T: seq<Slot>, D: seq<Entry>, m: map<Key, int>, key: Key, t: int,
                           p: seq<int>, count: int, tbl: int, victim: Slot, toevict: int)
  {
    && Walk(h, Keys(T, D), p) && p[0] == Start(h, Keys(T, D), key, t)
    && count == |p| - 1 + Skipped(h, Keys(T, D), key, t) <= MAX_INSERT + 1
    && tbl == p[|p| - 1] % TABLES && victim == T[p[|p| - 1]]
    && (victim.lasthit > 0 ==> 0 <= victim.index < |D|)
    && (count > 0 ==> toevict != NOENTRY && Removable(h, T, D, m, key, t, toevict))
  }

  lemma ScanStarts(h: Hash, T: seq<Slot>, D: seq<Entry>, m: map<Key, int>, key: Key, t: int)
    requires IndexInv(h, T, D, m) && 0 <= t < TABLES
    ensures var s := SlotOf(h, t, key); 0 <= s < |T|
    ensures var s := SlotOf(h, NextTable(t), key); 0 <= s < |T|
    ensures var s := SlotOf(h, t, key); T[s].lasthit == 0 ==> Scanning(h, T, D, m, key, t, [s], 0, t, T[s], NOENTRY)
    ensures var (s, s') := (SlotOf(h, t, key), SlotOf(h, NextTable(t), key));
            T[s].lasthit > 0 ==> Scanning(h, T, D, m, key, t, [s'], 1, NextTable(t), T[s'], T[s].index)
  {
    var (s, s') := (SlotOf(h, t, key), SlotOf(h, NextTable(t), key));
    SlotRange(h, t, key, |T|);
    SlotRange(h, NextTable(t), key, |T|);
    FirstSlotEmptied(h, Keys(T, D), key, t);
    if T[s].lasthit > 0 { assert Occupied(T, s); }
    if T[s'].lasthit > 0 { assert Occupied(T, s'); }
  }

  lemma ScanStep(h: Hash, T: seq<Slot>, D: seq<Entry>, m: map<Key, int>, key: Key, t: int,
                 p: seq<int>, count: int, tbl: int, victim: Slot, toevict: int)
    requires IndexInv(h, T, D, m) && 0 <= t < TABLES && victim.lasthit > 0 && count <= MAX_INSERT
    requires Scanning(h, T, D, m, key, t, p, count, tbl, victim, toevict)
    ensures 0 <= victim.index < |D| && victim.index != NOENTRY
    ensures var q := SlotOf(h, NextTable(tbl), D[victim.index].getInfo); 0 <= q < |T|
    ensures var q := SlotOf(h, NextTable(tbl), D[victim.index].getInfo);
            Scanning(h, T, D, m, key, t, p + [q], count + 1, NextTable(tbl), T[q], victim.index)
    ensures var q := SlotOf(h, NextTable(tbl), D[victim.index].getInfo);
            count > 0 ==> Scanning(h, T, D, m, key, t, p + [q], count + 1, NextTable(tbl), T[q], toevict)
  {
    var K, s := Keys(T, D), p[|p| - 1];
    var q := SlotOf(h, NextTable(tbl), D[victim.index].getInfo);
    assert Occupied(T, s);
    SlotRange(h, t, key, |T|);
    SlotRange(h, NextTable(tbl), D[victim.index].getInfo, |T|);
    EmptiedSlotIsReached(h, K, key, t, p);
    if T[q].lasthit > 0 { assert Occupied(T, q); }
    assert Walk(h, K, p + [q]);
  }

  lemma ScanEnds(h: Hash, T: seq<Slot>, D: seq<Entry>, m: map<Key, int>, key: Key, t: int,
                 p: seq<int>, count: int, tbl: int, victim: Slot, toevict: int)
    requires Scanning(h, T, D, m, key, t, p, count, tbl, victim, toevict) && victim.lasthit == 0
    ensures Insertable(h, Keys(T, D), key, t)
  {
    assert InsertWalk(h, Keys(T, D), key, t, p);
  }

  lemma ScanFails(h: Hash, T: seq<Slot>, D: seq<Entry>, m: map<Key, int>, key: Key, t: int,
                  p: seq<int>, count: int, tbl: int, victim: Slot, toevict: int)
    requires Scanning(h, T, D, m, key, t, p, count, tbl, victim, toevict) && victim.lasthit > 0 && count > MAX_INSERT
    ensures !Insertable(h, Keys(T, D), key, t)
  {
    TooLong(h, Keys(T, D), key, t, p);
  }

  // ---- the least score ----

  /** Of the given slots, number i has the least score; it is the first such, or the last such. */
  ghost predicate Least(T: seq<Slot>, slots: seq<int>, score: Slot -> real, i: int, first: bool) {
    && 0 <= i < |slots| && (forall j :: 0 <= j < |slots| ==> 0 <= slots[j] < |T|)
    && forall j :: 0 <= j < |slots| && j != i ==>
         if (j < i) == first then score(T[slots[i]]) < score(T[slots[j]]) else score(T[slots[i]]) <= score(T[slots[j]])
  }

  /** What a scan has noted: the best of the slots it has scored, its entry, and its score. */
  ghost predicate Best(T: seq<Slot>, slots: seq<int>, score: Slot -> real, i: int, first: bool, entry: int, min: real) {
    Least(T, slots, score, i, first) && T[slots[i]].index == entry && score(T[slots[i]]) == min
  }

  /** One more slot is scored. */
  lemma BestStep(T: seq<Slot>, slots: seq<int>, s: int, score: Slot -> real, i: int, first: bool, entry: int, min: real)
    requires 0 <= s < |T| && (slots != [] ==> Best(T, slots, score, i, first, entry, min))
    ensures if slots == [] || score(T[s]) < min || (score(T[s]) == min && !first)
            then Best(T, slots + [s], score, |slots|, first, T[s].index, score(T[s]))
            else Best(T, slots + [s], score, i, first, entry, min)
  {
    var slots' := slots + [s];
    assert forall j :: 0 <= j < |slots| ==> slots'[j] == slots[j];
  }

  lemma BestIn(T: seq<Slot>, slots: seq<int>, score: Slot -> real, i: int, first: bool, entry: int,
               min: real)
    requires Best(T, slots, score, i, first, entry, min)
    ensures 0 <= i < |slots| && 0 <= slots[i] < |T| && T[slots[i]].index == entry && Least(T, slots, score, i, first)
  {
  }

  lemma WalkInside(h: Hash, K: seq<Held>, p: seq<int>)
    requires Walk(h, K, p)
    ensures |p| > 0 && 0 <= p[|p| - 1] < |K|
  {
  }

  /** The slots that the dry run scores on the walk p: all that it passes. */
  ghost function Passed(h: Hash, K: seq<Held>, key: Key, t: int, p: seq<int>): seq<int>
    requires |p| > 0
  {
    (if Skipped(h, K, key, t) == 0 then [] else [SlotOf(h, t, key)]) + p[..|p| - 1]
  }

  /** The entry e has the least score on the walk p of an insertion that fails, as far as the bound
      on moves goes. */
  ghost predicate LeastOnWalk(h: Hash, T: seq<Slot>, K: seq<Held>, key: Key, t: int, score: Slot -> real, e: int,
                              p: seq<int>, best: nat)
  {
    && Walk(h, K, p) && p[0] == Start(h, K, key, t)
    && var slots := Passed(h, K, key, t, p);
       |slots| == 11 && Least(T, slots, score, best, true) && T[slots[best]].index == e
  }

  ghost predicate ForcedOut(h: Hash, T: seq<Slot>, K: seq<Held>, key: Key, t: int, score: Slot -> real, e: int) {
    exists p, best :: LeastOnWalk(h, T, K, key, t, score, e, p, best)
  }

  lemma PassedNext(h: Hash, K: seq<Held>, key: Key, t: int, p: seq<int>, q: int)
    requires |p| > 0
    ensures Passed(h, K, key, t, p + [q]) == Passed(h, K, key, t, p) + [p[|p| - 1]]
    ensures |Passed(h, K, key, t, p)| == |p| - 1 + Skipped(h, K, key, t)
  {
    assert (p + [q])[..|p|] == p[..|p| - 1] + [p[|p| - 1]];
  }

  lemma PassedFirst(h: Hash, T: seq<Slot>, D: seq<Entry>, m: map<Key, int>, key: Key, t: int, p: seq<int>)
    requires IndexInv(h, T, D, m) && 0 <= t < TABLES && p == [Start(h, Keys(T, D), key, t)]
    ensures 0 <= SlotOf(h, t, key) < |T|
    ensures Passed(h, Keys(T, D), key, t, p) ==
            [] + if T[SlotOf(h, t, key)].lasthit == 0 then [] else [SlotOf(h, t, key)]
  {
    SlotRange(h, t, key, |T|);
    SlotRange(h, NextTable(t), key, |T|);
    assert SlotOf(h, t, key) != SlotOf(h, NextTable(t), key);
  }

  lemma SizeGrows(m: map<Key, int>, k: Key, e: int)
    requires k !in m
    ensures |m[k := e]| == |m| + 1
  {
  }

  lemma SizeShrinks(m: map<Key, int>, k: Key)
    requires k in m
    ensures |m - {k}| == |m| - 1
  {
  }

  // ---- the scan for a victim ----

  const MAX_SCAN := 10

  /** How many steps slot s is ahead of start, going round an array of n slots. */
  ghost function Ahead(start: int, s: int, n: int): int { if s >= start then s - start else s - start + n }

  /** The slot after s, going round. */
  function SlotAfter(s: int, n: int): (r: int)
    requires 0 <= s < n
    ensures r == if s + 1 == n then 0 else s + 1
  {
    (s + 1) % n
  }

  lemma SomeOccupied(h: Hash, T: seq<Slot>, D: seq<Entry>, m: map<Key, int>)
    requires IndexInv(h, T, D, m) && m != map[]
    ensures |m| > 0 && exists s :: Occupied(T, s)
  {
  }

  /** The slot n places after start, going round. */
  ghost function Onward(start: int, n: nat, slots: nat): (r: int)
    requires 0 <= start < slots
    ensures 0 <= r < slots
  {
    if n == 0 then start else SlotAfter(Onward(start, n - 1, slots), slots)
  }

  /** The occupied ones among n slots from start on. */
  ghost function Sample(T: seq<Slot>, start: int, n: nat): seq<int>
    requires 0 <= start < |T|
  {
    if n == 0 then []
    else
      var (r, s) := (Sample(T, start, n - 1), Onward(start, n - 1, |T|));
      if T[s].lasthit > 0 then r + [s] else r
  }

  /** The scan for a victim has seen enough with n slots. */
  ghost predicate ScanOver(T: seq<Slot>, start: int, n: nat, entries: nat)
    requires 0 <= start < |T|
  {
    (n >= 10 && Sample(T, start, n) != []) || |Sample(T, start, n)| >= entries
  }

  /** The entry e has the least score among those that a scan from start on has to see. */
  ghost predicate LeastInSample(T: seq<Slot>, entries: nat, score: Slot -> real, e: int, start: int, scanned: nat,
                                best: nat)
  {
    && 0 <= start < |T| && ScanOver(T, start, scanned, entries)
    && (forall i: nat :: i < scanned ==> !ScanOver(T, start, i, entries))
    && var slots := Sample(T, start, scanned);
       Least(T, slots, score, best, false) && T[slots[best]].index == e
  }

  ghost predicate ScannedOut(T: seq<Slot>, entries: nat, score: Slot -> real, e: int) {
    exists start, scanned, best :: LeastInSample(T, entries, score, e, start, scanned, best)
  }

  /** The entry that has to go: because of the index, or for space. */
  ghost predicate VictimFor(h: Hash, T: seq<Slot>, K: seq<Held>, entries: nat, key: Key, t: int, score: Slot -> real,
                            inIndex: bool, e: int)
  {
    if inIndex then ForcedOut(h, T, K, key, t, score, e) else ScannedOut(T, entries, score, e)
  }

  lemma SampleStarts(T: seq<Slot>, start: int)
    requires 0 <= start < |T|
    ensures Sample(T, start, 0) == []
  {
  }

  lemma SampleNext(T: seq<Slot>, start: int, n: nat)
    requires 0 <= start < |T|
    ensures Sample(T, start, n + 1) ==
            Sample(T, start, n) + if T[Onward(start, n, |T|)].lasthit > 0 then [Onward(start, n, |T|)] else []
    ensures Onward(start, n + 1, |T|) == SlotAfter(Onward(start, n, |T|), |T|)
  {
  }

  /** While nothing was found and something is there, the round is not complete. */
  lemma ScanGoesOn(T: seq<Slot>, start: int, i: nat)
    requires 0 <= start < |T| && (exists s :: Occupied(T, s))
    requires forall s :: Occupied(T, s) ==> Ahead(start, s, |T|) >= i
    ensures i < |T|
  {
  }

  lemma OccupantOf(h: Hash, T: seq<Slot>, D: seq<Entry>, m: map<Key, int>, s: int)
    requires IndexInv(h, T, D, m) && Occupied(T, s)
    ensures 0 <= T[s].index < |D| && D[T[s].index].getInfo in m && m[D[T[s].index].getInfo] == T[s].index
  {
  }

  class HashTable {
    const table: array<Slot>
    const desc: array<Entry>
    const hash: Hash

    var tableSize: int
    ghost var contents: map<Key, int>

    ghost predicate Valid()
      reads this, table, desc
    {
      IndexInv(hash, table[..], desc[..], contents) && tableSize == |contents|
    }

    constructor (slots: nat, desc: array<Entry>, hash: Hash)
      requires HashOk(hash, slots)
      ensures Valid() && contents == map[] && fresh(table)
      ensures this.desc == desc && this.hash == hash && table.Length == slots
    {
      this.desc := desc;
      this.hash := hash;
      table := new Slot[slots](_ => Slot(0, 0));
      tableSize := 0;
      contents := map[];
    }

    /** Forgets all entries. */
    method Reset()
      requires HashOk(hash, table.Length)
      modifies this, table
      ensures Valid() && contents == map[]
    {
      tableSize := 0;
      contents := map[];
      for i := 0 to table.Length
        invariant tableSize == 0 && contents == map[]
        invariant forall s :: 0 <= s < i ==> table[s].lasthit == 0
      {
        table[i] := table[i].(lasthit := 0);
      }
    }

    /** What the slots hold. */
    ghost function Held(): seq<Held>
      reads this, table, desc
    {
      Keys(table[..], desc[..])
    }

    /** The entry with the given key, or NOENTRY when there is none.  The slot of the entry notes
        that it was used. */
    method Lookup(key: Key, now: nat) returns (entry: int)
      requires Valid() && now > 0
      modifies table
      ensures Valid() && Held() == old(Held())
      ensures key in contents ==>
                && 0 <= contents[key] < desc.Length && 0 <= desc[contents[key]].htindex < table.Length
                && table[..] == old(table[..])[desc[contents[key]].htindex := Slot(now, contents[key])]
      ensures key !in contents ==> table[..] == old(table[..])
      ensures entry == if key in contents then contents[key] else NOENTRY
    {
      hide IndexInv, Keys, SlotOf;
      ghost var D := desc[..];
      if key in contents { EntryOf(hash, table[..], D, contents, key); }
      for i := 0 to TABLES
        invariant Valid() && Held() == old(Held()) && table[..] == old(table[..])
        invariant key in contents ==> 0 <= contents[key] < |D|
        invariant key in contents ==> forall t :: 0 <= t < i ==> D[contents[key]].htindex != SlotOf(hash, t, key)
      {
        Probe(hash, table[..], D, contents, key, i);
        var s := SlotOf(hash, i, key);
        if table[s].lasthit == 0 {
          continue;
        }
        var c := table[s].index;
        if desc[c].getInfo == key {
          TouchKeeps(hash, table[..], D, contents, s, now);
          table[s] := table[s].(lasthit := now);
          return c;
        }
      }
      ProbedAll(hash, table[..], D, contents, key);
      entry := NOENTRY;
    }

    /** Forgets the entry c. */
    method Remove(c: int)
      requires Valid() && 0 <= c < desc.Length
      requires desc[c].getInfo in contents && contents[desc[c].getInfo] == c
      modifies this, table
      ensures Valid() && contents == old(contents) - {desc[c].getInfo}
      ensures 0 <= desc[c].htindex < |old(Held())| && Held() == old(Held())[desc[c].htindex := Empty]
      ensures desc[c].htindex < table.Length
      ensures table[..] == old(table[..])[desc[c].htindex := old(table[desc[c].htindex]).(lasthit := 0)]
    {
      hide IndexInv, Keys;
      ghost var k := desc[c].getInfo;
      EntryOf(hash, table[..], desc[..], contents, k);
      RemoveKey(hash, table[..], desc[..], contents, k);
      SizeShrinks(contents, k);
      var s := desc[c].htindex;
      table[s] := table[s].(lasthit := 0);
      tableSize := tableSize - 1;
      contents := contents - {k};
    }

    /** The dry run of an insertion that starts from the given table.  NOENTRY says that
        the insertion will succeed; otherwise it will not, until the entry named is removed.  That
        is the one with the least score on the walk p, as far as the bound on moves goes. */
    method InsertCheck(key: Key, start: int, score: Slot -> real)
      returns (toevict: int, ghost p: seq<int>, ghost best: nat)
      requires Valid() && 0 <= start < TABLES
      ensures toevict == NOENTRY <==> Insertable(hash, Held(), key, start)
      ensures toevict != NOENTRY ==> Removable(hash, table[..], desc[..], contents, key, start, toevict)
      ensures Walk(hash, Held(), p) && p[0] == Start(hash, Held(), key, start)
      ensures toevict != NOENTRY ==> LeastOnWalk(hash, table[..], Held(), key, start, score, toevict, p, best)
    {
      hide IndexInv, Keys, SlotOf, Walk, Start, Skipped, Insertable, Removable, Passed, Least;
      var tbl, count := start, 0;
      toevict, best := NOENTRY, 0;
      var minscore: real := 0.0;
      ScanStarts(hash, table[..], desc[..], contents, key, start);
      var victim := table[SlotOf(hash, tbl, key)];
      if victim.lasthit > 0 {
        minscore := score(victim);
        toevict := victim.index;
        BestStep(table[..], [], SlotOf(hash, tbl, key), score, best, true, toevict, minscore);
        count := count + 1;
        tbl := NextTable(tbl);
        victim := table[SlotOf(hash, tbl, key)];
      }
      p := [SlotOf(hash, tbl, key)];
      ghost var T, K := table[..], Held();
      PassedFirst(hash, T, desc[..], contents, key, start, p);
      while victim.lasthit > 0 && count <= MAX_INSERT
        invariant Scanning(hash, table[..], desc[..], contents, key, start, p, count, tbl, victim, toevict)
        invariant |Passed(hash, K, key, start, p)| == count
        invariant count > 0 ==> Best(T, Passed(hash, K, key, start, p), score, best, true, toevict, minscore)
        decreases MAX_INSERT + 1 - count
      {
        ghost var slots := Passed(hash, K, key, start, p);
        ghost var q := SlotOf(hash, NextTable(tbl), desc[victim.index].getInfo);
        var cscore := score(victim);
        ScanStep(hash, table[..], desc[..], contents, key, start, p, count, tbl, victim, toevict);
        PassedNext(hash, K, key, start, p, q);
        WalkInside(hash, K, p);
        BestStep(T, slots, p[|p| - 1], score, best, true, toevict, minscore);
        if count == 0 || cscore < minscore {
          best := |slots|;
          toevict := victim.index;
          minscore := cscore;
        }
        tbl := NextTable(tbl);
        p := p + [q];
        victim := table[SlotOf(hash, tbl, desc[victim.index].getInfo)];
        count := count + 1;
      }
      if victim.lasthit <= 0 {
        ScanEnds(hash, table[..], desc[..], contents, key, start, p, count, tbl, victim, toevict);
        toevict := NOENTRY;
      } else {
        ScanFails(hash, table[..], desc[..], contents, key, start, p, count, tbl, victim, toevict);
        BestIn(T, Passed(hash, K, key, start, p), score, best, true, toevict, minscore);
      }
    }

    /** The first swap: the new entry takes a slot, whose occupant is left in hand. */
    method InsertFirst(key: Key, start: int, entry: int, now: nat, ghost p: seq<int>)
      returns (victim: Slot, tbl: int, count: int, ghost m: map<Key, int>)
      requires IndexInv(hash, table[..], desc[..], contents) && 0 <= start < TABLES && now > 0 && key !in contents
      requires 0 <= entry < desc.Length && forall k :: k in contents ==> contents[k] != entry
      requires InsertWalk(hash, Held(), key, start, p)
      modifies table, desc
      ensures |p| > 0 && tbl == p[0] % TABLES && count == Skipped(hash, old(Held()), key, start)
      ensures Displacing(hash, old(table[..]), old(desc[..]), table[..], desc[..], m, contents[key := entry], key,
                         entry, p, 0, victim)
      ensures 0 <= p[0] < table.Length && table[..] == old(table[..])[p[0] := Slot(now, entry)]
    {
      hide IndexInv, Keys, SlotOf, Walk, Start, Skipped, Displacing, Filled;
      ghost var T, D := table[..], desc[..];
      m := FirstWrite(hash, T, D, contents, key, entry, start, p, now);
      StartIs(hash, T, D, contents, key, start, p);
      tbl, count := start, 0;
      var s := SlotOf(hash, tbl, key);
      victim := table[s];
      if victim.lasthit > 0 {
        count := count + 1;
        tbl := NextTable(tbl);
        s := SlotOf(hash, tbl, key);
        victim := table[s];
      }
      table[s] := table[s].(index := entry);
      desc[entry] := desc[entry].(getInfo := key);
      desc[entry] := desc[entry].(htindex := s);
      table[s] := table[s].(lasthit := now);
      assert table[..] == T[s := Slot(now, entry)];
      assert desc[..] == D[entry := D[entry].(getInfo := key, htindex := s)];
    }

    /** Adds an entry, displacing others along the walk p that the dry run has seen.  What is
        displaced takes its time of use along. */
    method Insert(key: Key, start: int, entry: int, now: nat) returns (ghost p: seq<int>)
      requires Valid() && 0 <= start < TABLES && now > 0 && key !in contents
      requires 0 <= entry < desc.Length && forall k :: k in contents ==> contents[k] != entry
      requires Insertable(hash, Held(), key, start)
      modifies this, table, desc
      ensures Valid() && contents == old(contents)[key := entry]
      ensures Filled(old(desc[..]), desc[..], key, entry)
      ensures InsertWalk(hash, old(Held()), key, start, p)
      ensures table[..] == Pushed(old(table[..]), p, Slot(now, entry), |p| - 1)
      ensures UsedNow(old(table[..]), old(desc[..]), old(contents), table[..], desc[..], contents, key, now)
    {
      hide IndexInv, Keys, SlotOf, Walk, Start, Skipped, InsertWalk, Displacing, Filled, UsedNow;
      ghost var T, D, M := table[..], desc[..], contents[key := entry];
      p :| InsertWalk(hash, Keys(T, D), key, start, p);
      InsertWalkSlots(hash, Keys(T, D), key, start, p);
      tableSize := tableSize + 1;
      SizeGrows(contents, key, entry);
      ghost var m;
      var victim, tbl, count;
      victim, tbl, count, m := InsertFirst(key, start, entry, now, p);
      ghost var j := 0;
      while victim.lasthit > 0 && count <= MAX_INSERT
        invariant contents == old(contents) && tableSize == old(tableSize) + 1
        invariant j < |p| && tbl == p[j] % TABLES && count == j + Skipped(hash, Keys(T, D), key, start)
        invariant Displacing(hash, T, D, table[..], desc[..], m, M, key, entry, p, j, victim)
        invariant table[..] == Pushed(T, p, Slot(now, entry), j)
        decreases MAX_INSERT + 1 - count
      {
        var rvictim := victim.index;
        m := NextWrite(hash, T, D, table[..], desc[..], m, M, key, entry, p, j, victim);
        tbl := NextTable(tbl);
        var s := SlotOf(hash, tbl, desc[rvictim].getInfo);
        var newvictim := table[s];
        table[s] := victim;
        victim := newvictim;
        desc[rvictim] := desc[rvictim].(htindex := s);
        count := count + 1;
        j := j + 1;
      }
      BoundSuffices(hash, T, D, table[..], desc[..], m, M, key, entry, start, p, j, victim);
      InsertionUses(hash, T, D, contents, table[..], desc[..], key, entry, now, p);
      contents := M;
    }

    /** Picks an entry to evict: the one with the least score among the entries in the slots from
        start on, of which it takes MAX_SCAN, or more until there is an entry, but no more entries
        than there are. */
    method SelectVictim(start: int, score: Slot -> real) returns (victim: int, scanned: nat, ghost best: nat)
      requires Valid() && 0 <= start < table.Length && contents != map[]
      ensures 0 <= victim < desc.Length && desc[victim].getInfo in contents && contents[desc[victim].getInfo] == victim
      ensures scanned <= (if table.Length < MAX_SCAN then MAX_SCAN else table.Length)
      ensures LeastInSample(table[..], |contents|, score, victim, start, scanned, best)
    {
      hide IndexInv, Sample, Least;
      SomeOccupied(hash, table[..], desc[..], contents);
      var idx, i, c := start, 0, 0;
      var minscore: real := 0.0;
      victim, best := NOENTRY, 0;
      ghost var T, slots := table[..], [];
      SampleStarts(T, start);
      while (i < MAX_SCAN || c == 0) && c < tableSize
        invariant 0 <= idx < table.Length && idx == Onward(start, i, |T|)
        invariant slots == Sample(T, start, i) && c == |slots|
        invariant 0 <= i <= (if table.Length < MAX_SCAN then MAX_SCAN else table.Length)
        invariant forall n: nat :: n < i ==> !ScanOver(T, start, n, tableSize)
        invariant c == 0 ==> i <= table.Length && (i < table.Length ==> Ahead(start, idx, table.Length) == i)
        invariant c == 0 ==> forall s :: Occupied(table[..], s) ==> Ahead(start, s, table.Length) >= i
        invariant c > 0 ==> Best(T, slots, score, best, false, victim, minscore)
        invariant forall j :: 0 <= j < |slots| ==> Occupied(T, slots[j])
        decreases (if table.Length < MAX_SCAN then MAX_SCAN else table.Length) - i
      {
        if c == 0 { ScanGoesOn(table[..], start, i); }
        SampleNext(T, start, i);
        if table[idx].lasthit > 0 {
          assert Occupied(table[..], idx);
          var cscore := score(table[idx]);
          BestStep(T, slots, idx, score, best, false, victim, minscore);
          if cscore <= minscore || c == 0 {
            best := |slots|;
            minscore := cscore;
            victim := table[idx].index;
          }
          c := c + 1;
          slots := slots + [idx];
        }
        idx := SlotAfter(idx, table.Length);
        i := i + 1;
      }
      BestIn(T, slots, score, best, false, victim, minscore);
      OccupantOf(hash, table[..], desc[..], contents, slots[best]);
      scanned := i;
    }
  }
}
