/** Entries on their way into the buffer: the pending copies, and what a flush makes of
    them. */
module CacheFlight {
  import opened Descriptors
  import opened Sequences
  import opened Regions
  import opened CacheState
  import opened CuckooWalk
  import opened CuckooIndex
  import opened Window

  /** A copy to be made by the next flush: size bytes from application address origin to
      buffer offset target, on behalf of a descriptor. */
  datatype Pending = Pending(entry: int, target: nat, origin: nat, size: nat)

  /** The descriptor of record q still waits for that very record. */
  ghost predicate Current(D: seq<Entry>, pend: seq<Pending>, q: int) {
    0 <= q < |pend| && 0 <= pend[q].entry < |D| && D[pend[q].entry].pending == q
  }

  /** Key k is cached, but its bytes are still to come. */
  ghost predicate Waiting(D: seq<Entry>, m: map<Key, int>, k: Key) {
    k in m && 0 <= m[k] < |D| && D[m[k]].pending >= 0
  }

  /** Every entry that waits has its record, for a get that is still outstanding; and only
      entries wait for records. */
  ghost predicate InFlight(D: seq<Entry>, m: map<Key, int>, pend: seq<Pending>, outstanding: seq<Rma>) {
    && (forall k :: Waiting(D, m, k) ==>
          D[m[k]].pending < |pend| &&
          var r := pend[D[m[k]].pending];
          r.entry == m[k] && r.target == D[m[k]].offset && r.size == k.size && Rma(r.origin, k) in outstanding)
    && (forall q :: 0 <= q < |pend| ==> 0 <= pend[q].entry < |D|)
    && forall q :: Current(D, pend, q) ==> var e := pend[q].entry; D[e].getInfo in m && m[D[e].getInfo] == e
  }

  /** Every entry that no longer waits holds the remote bytes of its key. */
  ghost predicate Faithful(D: seq<Entry>, m: map<Key, int>, mem: seq<byte>, remote: Remote) {
    forall k :: k in m && !Waiting(D, m, k) ==>
      0 <= m[k] < |D| && D[m[k]].offset + k.size <= |mem| && mem[D[m[k]].offset..D[m[k]].offset + k.size] == remote(k)
  }

  // ---- framing ----

  /** D' has the same entries at the same places, in the same state of flight. */
  ghost predicate SameTags(D: seq<Entry>, D': seq<Entry>) {
    |D'| == |D| && forall e :: 0 <= e < |D| ==>
      D'[e].getInfo == D[e].getInfo && D'[e].htindex == D[e].htindex &&
      D'[e].offset == D[e].offset && D'[e].pending == D[e].pending
  }

  lemma SameTagsTwice(D: seq<Entry>, D1: seq<Entry>, D2: seq<Entry>)
    requires SameTags(D, D1) && SameTags(D1, D2)
    ensures SameTags(D, D2)
  {
  }

  lemma SameTagsAt(D: seq<Entry>, D': seq<Entry>, e: int)
    requires SameTags(D, D') && 0 <= e < |D|
    ensures |D'| == |D| && D'[e].getInfo == D[e].getInfo && D'[e].htindex == D[e].htindex
    ensures D'[e].offset == D[e].offset && D'[e].pending == D[e].pending
  {
  }

  /** The index of entries does not depend on anything but keys and slots. */
  lemma IndexFrame(h: Hash, T: seq<Slot>, D: seq<Entry>, D': seq<Entry>, m: map<Key, int>)
    requires IndexInv(h, T, D, m) && |D'| == |D|
    requires forall e :: 0 <= e < |D| ==> D'[e].getInfo == D[e].getInfo && D'[e].htindex == D[e].htindex
    ensures IndexInv(h, T, D', m) && Keys(T, D') == Keys(T, D)
  {
  }

  lemma TagsFrame(h: Hash, T: seq<Slot>, D: seq<Entry>, D': seq<Entry>, m: map<Key, int>, pend: seq<Pending>,
                  outstanding: seq<Rma>)
    requires IndexInv(h, T, D, m) && InFlight(D, m, pend, outstanding) && SameTags(D, D')
    ensures IndexInv(h, T, D', m) && InFlight(D', m, pend, outstanding) && Keys(T, D') == Keys(T, D)
  {
  }

  lemma MoreOutstanding(D: seq<Entry>, m: map<Key, int>, pend: seq<Pending>, outstanding: seq<Rma>, g: Rma)
    requires InFlight(D, m, pend, outstanding)
    ensures InFlight(D, m, pend, outstanding + [g])
  {
  }

  /** A new entry n starts waiting for a new record. */
  lemma NewFlight(D: seq<Entry>, D': seq<Entry>, m: map<Key, int>, pend: seq<Pending>, outstanding: seq<Rma>,
                  key: Key, n: int, origin: nat)
    requires InFlight(D, m, pend, outstanding) && key !in m && 0 <= n < |D| == |D'| && D'[n].getInfo == key
    requires forall k :: k in m ==> 0 <= m[k] < |D| && m[k] != n && D[m[k]].getInfo == k
    requires D'[n].pending == |pend| && Rma(origin, key) in outstanding
    requires forall e :: 0 <= e < |D| && e != n ==> D'[e].pending == D[e].pending
    requires forall k :: k in m ==> D'[m[k]].getInfo == k && D'[m[k]].offset == D[m[k]].offset
    ensures InFlight(D', m[key := n], pend + [Pending(n, D'[n].offset, origin, key.size)], outstanding)
  {
  }

  // ---- what a get may do to the entries ----

  /** Entries that stay keep their place and state of flight; new ones wait for their bytes. */
  ghost predicate Carried(D: seq<Entry>, m: map<Key, int>, D': seq<Entry>, m': map<Key, int>) {
    && |D'| == |D|
    && (forall k :: k in m && k in m' ==>
          m'[k] == m[k] && 0 <= m[k] < |D| && D'[m[k]].offset == D[m[k]].offset && D'[m[k]].pending == D[m[k]].pending)
    && forall k :: k in m' && k !in m ==> Waiting(D', m', k)
  }

  /** All entries wait: what transparent mode relies on. */
  ghost predicate AllWait(D: seq<Entry>, m: map<Key, int>) {
    forall k :: k in m ==> Waiting(D, m, k)
  }

  lemma CarriedOn(D: seq<Entry>, m: map<Key, int>, D1: seq<Entry>, m1: map<Key, int>, D2: seq<Entry>, m2: map<Key, int>)
    requires Carried(D, m, D1, m1) && Carried(D1, m1, D2, m2) && m.Keys * m2.Keys <= m1.Keys
    ensures Carried(D, m, D2, m2)
  {
  }

  /** What an eviction has done, once the entry v has stopped waiting. */
  lemma Evicted(D: seq<Entry>, D1: seq<Entry>, D2: seq<Entry>, m: map<Key, int>, pend: seq<Pending>,
                outstanding: seq<Rma>, v: int)
    requires (forall k :: k in m ==> 0 <= m[k] < |D| && D[m[k]].getInfo == k) && InFlight(D, m, pend, outstanding)
    requires SameTags(D, D1) && 0 <= v < |D| && D[v].getInfo in m && m[D[v].getInfo] == v
    requires D2 == D1[v := D1[v].(pending := -1)]
    ensures InFlight(D2, m - {D[v].getInfo}, pend, outstanding)
    ensures Carried(D, m, D2, m - {D[v].getInfo})
  {
  }

  lemma EntriesInRange(h: Hash, T: seq<Slot>, D: seq<Entry>, m: map<Key, int>)
    requires IndexInv(h, T, D, m)
    ensures forall k :: k in m ==> 0 <= m[k] < |D| && D[m[k]].getInfo == k
  {
  }

  lemma HandlesTags(D: seq<Entry>, D': seq<Entry>)
    requires HandlesOnly(D, D')
    ensures SameTags(D, D') && SameKinds(D, D')
  {
  }
}
