/** A flush: the pending copies are made from the top of the stack down, each for the entry
    that still waits for it. */
module CacheDrain {
  import opened Descriptors
  import opened Regions
  import opened CacheState
  import opened CacheFlight
  import opened Window

  /** Entries that waited for a record above c no longer wait. */
  ghost predicate Drained(D: seq<Entry>, D': seq<Entry>, R: seq<Pending>, c: int) {
    && |D'| == |D| && -1 <= c
    && forall e :: 0 <= e < |D| ==>
         D'[e] == D[e].(pending := if c < D[e].pending < |R| && R[D[e].pending].entry == e then -1 else D[e].pending)
  }

  /** Each entry lies in the buffer, and gets its bytes from inside the application's memory. */
  ghost predicate Bounded(D: seq<Entry>, m: map<Key, int>, R: seq<Pending>, buffer: nat, memory: nat) {
    && (forall k :: k in m ==> 0 <= m[k] < |D| && D[m[k]].offset + k.size <= buffer)
    && forall k :: Waiting(D, m, k) ==> D[m[k]].pending < |R| && R[D[m[k]].pending].origin + k.size <= memory
  }

  /** The bytes of entry k in the buffer. */
  ghost function Bytes(D: seq<Entry>, m: map<Key, int>, mem: seq<byte>, k: Key): seq<byte>
    requires k in m && 0 <= m[k] < |D| && D[m[k]].offset + k.size <= |mem|
  {
    mem[D[m[k]].offset..D[m[k]].offset + k.size]
  }

  /** The bytes that entry k waits for, in the application's memory. */
  ghost function Due(D: seq<Entry>, m: map<Key, int>, R: seq<Pending>, app: seq<byte>, k: Key): seq<byte>
    requires Waiting(D, m, k) && D[m[k]].pending < |R| && R[D[m[k]].pending].origin + k.size <= |app|
  {
    var a := R[D[m[k]].pending].origin;
    app[a..a + k.size]
  }

  /** Entries that waited for a record above c have got their bytes, and the others kept theirs. */
  ghost predicate Copied(D: seq<Entry>, m: map<Key, int>, R: seq<Pending>, mem: seq<byte>, mem': seq<byte>,
                         app: seq<byte>, c: int)
    requires Bounded(D, m, R, |mem|, |app|)
  {
    && |mem'| == |mem|
    && forall k :: k in m ==>
         Bytes(D, m, mem', k) ==
           if Waiting(D, m, k) && D[m[k]].pending > c then Due(D, m, R, app, k) else Bytes(D, m, mem, k)
  }

  /** Buffer address a belongs to an entry that waits. */
  ghost predicate Awaited(D: seq<Entry>, m: map<Key, int>, a: int) {
    exists k :: Waiting(D, m, k) && D[m[k]].offset <= a < D[m[k]].offset + k.size
  }

  /** Nothing but regions of waiting entries was written. */
  ghost predicate OnlyAwaited(D: seq<Entry>, m: map<Key, int>, mem: seq<byte>, mem': seq<byte>) {
    |mem'| == |mem| && forall a :: 0 <= a < |mem| && !Awaited(D, m, a) ==> mem'[a] == mem[a]
  }

  /** What the loop has achieved when record c is next. */
  ghost predicate Draining(D: seq<Entry>, D': seq<Entry>, m: map<Key, int>, R: seq<Pending>,
                           mem: seq<byte>, mem': seq<byte>, app: seq<byte>, c: int)
  {
    && Drained(D, D', R, c) && Bounded(D, m, R, |mem|, |app|) && Copied(D, m, R, mem, mem', app, c)
    && OnlyAwaited(D, m, mem, mem')
  }

  lemma WaitingBounded(D: seq<Entry>, o: seq<int>, m: map<Key, int>, M: nat, R: seq<Pending>, outstanding: seq<Rma>,
                       memory: nat)
    requires RegionInv(D, o, M) && EntryIndex(D, o, m) && InFlight(D, m, R, outstanding)
    requires forall g :: g in outstanding ==> Fits(g, memory)
    ensures Bounded(D, m, R, M, memory)
  {
    hide Linked, Tiled, Alternates, EntryIndex;
    forall k | k in m ensures 0 <= m[k] < |D| && D[m[k]].offset + k.size <= M { EntryInBuffer(D, o, m, M, k); }
    forall k | Waiting(D, m, k) ensures R[D[m[k]].pending].origin + k.size <= memory {
      assert Fits(Rma(R[D[m[k]].pending].origin, k), memory);
    }
  }

  lemma DrainStarts(D: seq<Entry>, m: map<Key, int>, R: seq<Pending>, mem: seq<byte>, app: seq<byte>)
    requires Bounded(D, m, R, |mem|, |app|)
    ensures Draining(D, D, m, R, mem, mem, app, |R| - 1)
  {
  }

  /** A record that is not current is skipped: nobody waits for it. */
  lemma DrainSkips(D: seq<Entry>, D': seq<Entry>, m: map<Key, int>, R: seq<Pending>, outstanding: seq<Rma>,
                   mem: seq<byte>, mem': seq<byte>, app: seq<byte>, c: int)
    requires Draining(D, D', m, R, mem, mem', app, c) && InFlight(D, m, R, outstanding) && 0 <= c < |R|
    requires 0 <= R[c].entry < |D| && D'[R[c].entry].pending != c
    ensures Draining(D, D', m, R, mem, mem', app, c - 1)
  {
    forall k | k in m && Waiting(D, m, k) ensures D[m[k]].pending != c {
    }
  }

  lemma BytesWritten(D: seq<Entry>, m: map<Key, int>, mem: seq<byte>, k: Key, data: seq<byte>)
    requires k in m && 0 <= m[k] < |D| && D[m[k]].offset + k.size <= |mem| && |data| == k.size
    ensures Bytes(D, m, Write(mem, D[m[k]].offset, data), k) == data
  {
  }

  lemma BytesKept(D: seq<Entry>, o: seq<int>, M: nat, m: map<Key, int>, mem: seq<byte>, k: Key, data: seq<byte>, x: Key)
    requires RegionInv(D, o, M) && EntryIndex(D, o, m) && |mem| == M && k in m && x in m && x != k && |data| == k.size
    ensures 0 <= m[k] < |D| && 0 <= m[x] < |D| && D[m[x]].offset + x.size <= |mem|
    ensures Bytes(D, m, Write(mem, D[m[k]].offset, data), x) == Bytes(D, m, mem, x)
  {
    hide RegionInv;
    EntriesApart(D, o, m, M, k, x);
    EntryInBuffer(D, o, m, M, x);
    WriteElsewhere(mem, D[m[k]].offset, data, D[m[x]].offset, x.size);
  }

  lemma CopiedNext(D: seq<Entry>, m: map<Key, int>, R: seq<Pending>,
                   mem: seq<byte>, mem': seq<byte>, mem'': seq<byte>, app: seq<byte>, c: nat, k: Key)
    requires Bounded(D, m, R, |mem|, |app|) && Copied(D, m, R, mem, mem', app, c) && |mem''| == |mem|
    requires Waiting(D, m, k) && D[m[k]].pending == c && forall x :: Waiting(D, m, x) && x != k ==> D[m[x]].pending != c
    requires Bytes(D, m, mem'', k) == Due(D, m, R, app, k)
    requires forall x :: x in m && x != k ==> Bytes(D, m, mem'', x) == Bytes(D, m, mem', x)
    ensures Copied(D, m, R, mem, mem'', app, c - 1)
  {
  }

  /** The bytes of one entry arrive in the buffer. */
  lemma CopiedOne(D: seq<Entry>, o: seq<int>, M: nat, m: map<Key, int>, R: seq<Pending>,
                  mem: seq<byte>, mem': seq<byte>, app: seq<byte>, c: nat, k: Key)
    requires Bounded(D, m, R, M, |app|) && |mem| == M == |mem'| && Copied(D, m, R, mem, mem', app, c)
    requires RegionInv(D, o, M) && EntryIndex(D, o, m) && c < |R|
    requires Waiting(D, m, k) && D[m[k]].pending == c && forall x :: Waiting(D, m, x) && x != k ==> D[m[x]].pending != c
    ensures Copied(D, m, R, mem, Write(mem', D[m[k]].offset, Due(D, m, R, app, k)), app, c - 1)
  {
    hide RegionInv, EntryIndex, Copied, Bytes;
    var data := Due(D, m, R, app, k);
    BytesWritten(D, m, mem', k, data);
    forall x | x in m && x != k ensures Bytes(D, m, Write(mem', D[m[k]].offset, data), x) == Bytes(D, m, mem', x) {
      BytesKept(D, o, M, m, mem', k, data, x);
    }
    CopiedNext(D, m, R, mem, mem', Write(mem', D[m[k]].offset, data), app, c, k);
  }

  lemma DrainedOne(D: seq<Entry>, D': seq<Entry>, R: seq<Pending>, c: nat)
    requires Drained(D, D', R, c) && c < |R| && 0 <= R[c].entry < |D| && D'[R[c].entry].pending == c
    ensures D[R[c].entry].pending == c
    ensures var e := R[c].entry; Drained(D, D'[e := D'[e].(pending := -1)], R, c - 1)
  {
  }

  lemma AwaitedOne(D: seq<Entry>, m: map<Key, int>, mem: seq<byte>, mem': seq<byte>, k: Key, data: seq<byte>)
    requires OnlyAwaited(D, m, mem, mem') && Waiting(D, m, k) && |data| == k.size
    ensures OnlyAwaited(D, m, mem, Write(mem', D[m[k]].offset, data))
  {
  }

  /** A current record is the record of a live entry, which gets its bytes; no other entry is
      affected. */
  lemma DrainCopies(D: seq<Entry>, D': seq<Entry>, o: seq<int>, M: nat, m: map<Key, int>, R: seq<Pending>,
                    outstanding: seq<Rma>,
                    mem: seq<byte>, mem': seq<byte>, app: seq<byte>, c: int)
    returns (k: Key)
    requires Draining(D, D', m, R, mem, mem', app, c) && InFlight(D, m, R, outstanding) && 0 <= c < |R|
    requires RegionInv(D, o, M) && EntryIndex(D, o, m) && |mem| == M
    requires 0 <= R[c].entry < |D| && D'[R[c].entry].pending == c
    ensures Waiting(D, m, k) && m[k] == R[c].entry && D[m[k]].pending == c
    ensures R[c].target == D[m[k]].offset && R[c].size == k.size && R[c].target + R[c].size <= M
    ensures R[c].origin + R[c].size <= |app|
    ensures var e := R[c].entry;
            Draining(D, D'[e := D'[e].(pending := -1)], m, R, mem,
                     Write(mem', R[c].target, app[R[c].origin..R[c].origin + R[c].size]), app, c - 1)
  {
    hide RegionInv, EntryIndex, Drained, Copied;
    var r := R[c];
    DrainedOne(D, D', R, c);
    assert Current(D, R, c);
    k := D[r.entry].getInfo;
    assert Waiting(D, m, k);
    forall x | Waiting(D, m, x) && x != k ensures D[m[x]].pending != c { EntriesApart(D, o, m, M, k, x); }
    CopiedOne(D, o, M, m, R, mem, mem', app, c, k);
    AwaitedOne(D, m, mem, mem', k, Due(D, m, R, app, k));
  }

  /** Afterwards no entry waits. */
  lemma DrainEnds(D: seq<Entry>, D': seq<Entry>, m: map<Key, int>, R: seq<Pending>, outstanding: seq<Rma>,
                  outstanding': seq<Rma>)
    requires Drained(D, D', R, -1) && InFlight(D, m, R, outstanding)
    ensures (forall k :: k in m ==> !Waiting(D', m, k)) && InFlight(D', m, [], outstanding')
  {
  }

  /** A flush changes nothing but who waits. */
  lemma DrainedOnly(D: seq<Entry>, D': seq<Entry>, R: seq<Pending>, c: int)
    requires Drained(D, D', R, c)
    ensures |D'| == |D| && forall e :: 0 <= e < |D| ==> D'[e] == D[e].(pending := D'[e].pending)
  {
  }

  /** An entry that waited has the bytes it waited for. */
  lemma DrainedBytes(D: seq<Entry>, D': seq<Entry>, m: map<Key, int>, R: seq<Pending>, outstanding: seq<Rma>,
                     mem: seq<byte>, mem': seq<byte>, app: seq<byte>, k: Key)
    requires Draining(D, D', m, R, mem, mem', app, -1) && InFlight(D, m, R, outstanding) && Waiting(D, m, k)
    ensures k in m && 0 <= m[k] < |D'| && D'[m[k]].offset + k.size <= |mem'| && !Waiting(D', m, k)
    ensures D[m[k]].pending < |R| && R[D[m[k]].pending].origin + k.size <= |app|
    ensures Bytes(D', m, mem', k) == Due(D, m, R, app, k)
  {
    hide InFlight, Drained, OnlyAwaited;
    DrainEnds(D, D', m, R, outstanding, outstanding);
    DrainedOnly(D, D', R, -1);
    assert Bytes(D, m, mem', k) == Due(D, m, R, app, k);
  }

  /** An entry that had arrived keeps its bytes. */
  lemma DrainedKept(D: seq<Entry>, D': seq<Entry>, m: map<Key, int>, R: seq<Pending>, mem: seq<byte>, mem': seq<byte>,
                    app: seq<byte>, k: Key)
    requires Draining(D, D', m, R, mem, mem', app, -1) && k in m && !Waiting(D, m, k)
    ensures 0 <= m[k] < |D'| && D'[m[k]].offset + k.size <= |mem'| && 0 <= m[k] < |D|
    ensures D[m[k]].offset + k.size <= |mem| && Bytes(D', m, mem', k) == Bytes(D, m, mem, k)
  {
    hide Drained, OnlyAwaited;
    DrainedOnly(D, D', R, -1);
    assert Bytes(D, m, mem', k) == Bytes(D, m, mem, k);
  }

  /** The buffer is right after the copies exactly if it was right before and every copy took
      the right bytes. */
  lemma DrainedFaithful(D: seq<Entry>, D': seq<Entry>, m: map<Key, int>, R: seq<Pending>, outstanding: seq<Rma>,
                        mem: seq<byte>, mem': seq<byte>, app: seq<byte>, remote: Remote)
    requires Draining(D, D', m, R, mem, mem', app, -1) && InFlight(D, m, R, outstanding)
    ensures Faithful(D', m, mem', remote) <==>
            Faithful(D, m, mem, remote) && forall k :: Waiting(D, m, k) ==> Due(D, m, R, app, k) == remote(k)
  {
    hide InFlight;
    DrainEnds(D, D', m, R, outstanding, outstanding);
    assert forall k :: k in m ==> Bytes(D', m, mem', k) == Bytes(D, m, mem', k);
    if Faithful(D', m, mem', remote) {
      forall k | k in m && !Waiting(D, m, k) ensures Bytes(D, m, mem, k) == remote(k) {
        assert Bytes(D', m, mem', k) == remote(k);
      }
      forall k | Waiting(D, m, k) ensures Due(D, m, R, app, k) == remote(k) {
        assert Bytes(D', m, mem', k) == remote(k);
      }
    }
    if Faithful(D, m, mem, remote) && forall k :: Waiting(D, m, k) ==> Due(D, m, R, app, k) == remote(k) {
      forall k | k in m ensures Bytes(D', m, mem', k) == remote(k) {
        if !Waiting(D, m, k) { assert Bytes(D, m, mem, k) == remote(k); }
      }
    }
  }

  lemma RecordOf(D: seq<Entry>, m: map<Key, int>, R: seq<Pending>, outstanding: seq<Rma>, k: Key)
    requires InFlight(D, m, R, outstanding) && Waiting(D, m, k)
    ensures D[m[k]].pending < |R| && Rma(R[D[m[k]].pending].origin, k) in outstanding
  {
  }

  /** What a flush of one rank does to the bytes at the origin of a get. */
  lemma FlushedBytes(outstanding: seq<Rma>, app: seq<byte>, remote: Remote, rank: int, g: Rma)
    requires Sized(remote) && AllApart(outstanding) && g in outstanding && Fits(g, |app|)
    ensures Complete(app, OfRank(outstanding, rank, true), remote)[g.origin..g.origin + g.key.size] ==
            if g.key.rank == rank then remote(g.key) else app[g.origin..g.origin + g.key.size]
  {
    var gets := OfRank(outstanding, rank, true);
    OfRankApart(outstanding, rank, true);
    if g.key.rank == rank {
      var i :| 0 <= i < |gets| && gets[i] == g;
      CompleteDelivers(app, gets, remote, i);
    } else {
      forall h | h in gets ensures Apart(h, g) { ApartIn(outstanding, h, g); }
      CompleteElsewhere(app, gets, remote, g);
    }
  }

  /** A flush of one rank delivers what the entries of that rank wait for.  What entries of
      other ranks wait for stays what it was before the flush. */
  lemma DueAfterFlush(D: seq<Entry>, m: map<Key, int>, R: seq<Pending>, outstanding: seq<Rma>, app: seq<byte>,
                      app': seq<byte>,
                      remote: Remote, rank: int, k: Key)
    requires InFlight(D, m, R, outstanding) && Waiting(D, m, k) && Sized(remote) && AllApart(outstanding)
    requires (forall g :: g in outstanding ==> Fits(g, |app|))
    requires app' == Complete(app, OfRank(outstanding, rank, true), remote)
    ensures D[m[k]].pending < |R| && R[D[m[k]].pending].origin + k.size <= |app|
    ensures Due(D, m, R, app', k) == if k.rank == rank then remote(k) else Due(D, m, R, app, k)
  {
    hide Complete, AllApart, InFlight, OfRank, Sized;
    RecordOf(D, m, R, outstanding, k);
    var g := Rma(R[D[m[k]].pending].origin, k);
    FlushedBytes(outstanding, app, remote, rank, g);
  }

  /** When a flush of one rank is sound for the cache: exactly if the entries of other ranks
      that wait happen to have their bytes already. */
  lemma FlushFaithful(D: seq<Entry>, D': seq<Entry>, m: map<Key, int>, R: seq<Pending>, outstanding: seq<Rma>,
                      mem: seq<byte>, mem': seq<byte>, app: seq<byte>, app': seq<byte>, remote: Remote, rank: int)
    requires Draining(D, D', m, R, mem, mem', app', -1) && InFlight(D, m, R, outstanding) && Sized(remote)
    requires AllApart(outstanding)
    requires (forall g :: g in outstanding ==> Fits(g, |app|))
    requires app' == Complete(app, OfRank(outstanding, rank, true), remote)
    ensures Faithful(D', m, mem', remote) <==>
            && Faithful(D, m, mem, remote)
            && forall k :: Waiting(D, m, k) && k.rank != rank ==> Due(D, m, R, app, k) == remote(k)
  {
    hide InFlight, Draining;
    DrainedFaithful(D, D', m, R, outstanding, mem, mem', app', remote);
    forall k | Waiting(D, m, k)
      ensures D[m[k]].pending < |R| && R[D[m[k]].pending].origin + k.size <= |app|
      ensures Due(D, m, R, app', k) == if k.rank == rank then remote(k) else Due(D, m, R, app, k)
    {
      DueAfterFlush(D, m, R, outstanding, app, app', remote, rank, k);
    }
  }

  lemma RecordInRange(D: seq<Entry>, m: map<Key, int>, R: seq<Pending>, outstanding: seq<Rma>, c: nat)
    requires InFlight(D, m, R, outstanding) && c < |R|
    ensures 0 <= R[c].entry < |D|
  {
  }

  // ---- when a flush is sound ----

  /** No entry of another rank waits for any bytes.  An application can tell: it knows which
      gets were cached since the last flush. */
  ghost predicate OnlyOfRank(D: seq<Entry>, m: map<Key, int>, rank: int) {
    forall k :: Waiting(D, m, k) && k.size > 0 ==> k.rank == rank
  }

  /** A flush of the given rank leaves all entries with the bytes of the remote window. */
  ghost predicate FlushKeeps(D: seq<Entry>, m: map<Key, int>, R: seq<Pending>, outstanding: seq<Rma>,
                             mem: seq<byte>, app: seq<byte>, rank: int, remote: Remote)
  {
    forall D', mem' ::
      Draining(D, D', m, R, mem, mem', Complete(app, OfRank(outstanding, rank, true), remote), -1) ==>
      Faithful(D', m, mem', remote)
  }

  lemma DrainingLength(D: seq<Entry>, D': seq<Entry>, m: map<Key, int>, R: seq<Pending>,
                       mem: seq<byte>, mem': seq<byte>, app: seq<byte>, c: int)
    requires Draining(D, D', m, R, mem, mem', app, c)
    ensures |D'| == |D|
  {
  }

  /** The copies can be made whatever the application's memory holds. */
  lemma {:induction false} DrainCan(D: seq<Entry>, D0: seq<Entry>, o: seq<int>, M: nat, m: map<Key, int>,
                                    R: seq<Pending>,
                                    outstanding: seq<Rma>, mem: seq<byte>, mem0: seq<byte>, app: seq<byte>, c: int)
    returns (D': seq<Entry>, mem': seq<byte>)
    requires Draining(D, D0, m, R, mem, mem0, app, c) && InFlight(D, m, R, outstanding) && -1 <= c < |R|
    requires RegionInv(D, o, M) && EntryIndex(D, o, m) && |mem| == M
    ensures Draining(D, D', m, R, mem, mem', app, -1)
    decreases c
  {
    hide RegionInv, EntryIndex, InFlight, Draining;
    if c == -1 {
      D', mem' := D0, mem0;
    } else {
      RecordInRange(D, m, R, outstanding, c);
      DrainingLength(D, D0, m, R, mem, mem0, app, c);
      var r := R[c];
      if D0[r.entry].pending == c {
        var k := DrainCopies(D, D0, o, M, m, R, outstanding, mem, mem0, app, c);
        var mem1 := Write(mem0, r.target, app[r.origin..r.origin + r.size]);
        D', mem' := DrainCan(D, D0[r.entry := D0[r.entry].(pending := -1)], o, M, m, R, outstanding, mem, mem1, app,
                             c - 1);
      } else {
        DrainSkips(D, D0, m, R, outstanding, mem, mem0, app, c);
        D', mem' := DrainCan(D, D0, o, M, m, R, outstanding, mem, mem0, app, c - 1);
      }
    }
  }

  /** Other bytes than the given ones. */
  function Flipped(data: seq<byte>): (r: seq<byte>)
    ensures |r| == |data| && (|data| > 0 ==> r != data)
  {
    var r := seq(|data|, i requires 0 <= i < |data| => if data[i] == 0 then 1 else 0);
    assert |data| > 0 ==> r[0] != data[0];
    r
  }

  /** A remote window that differs from the given one at a waiting key of another rank only:
      all that has arrived is right, and no flush of this rank leaves the cache right. */
  lemma WrongWindow(D: seq<Entry>, m: map<Key, int>, R: seq<Pending>, outstanding: seq<Rma>, mem: seq<byte>,
                    app: seq<byte>, rank: int, remote: Remote, k: Key)
    returns (remote': Remote)
    requires InFlight(D, m, R, outstanding) && AllApart(outstanding) && forall g :: g in outstanding ==> Fits(g, |app|)
    requires Sized(remote) && Faithful(D, m, mem, remote) && Waiting(D, m, k) && k.size > 0 && k.rank != rank
    ensures Sized(remote') && Faithful(D, m, mem, remote') && forall x :: x != k ==> remote'(x) == remote(x)
    ensures forall D', mem' ::
              Draining(D, D', m, R, mem, mem', Complete(app, OfRank(outstanding, rank, true), remote'), -1) ==>
              !Faithful(D', m, mem', remote')
  {
    RecordOf(D, m, R, outstanding, k);
    assert Fits(Rma(R[D[m[k]].pending].origin, k), |app|);
    var due := Due(D, m, R, app, k);
    remote' := x => if x == k then Flipped(due) else remote(x);
    var app' := Complete(app, OfRank(outstanding, rank, true), remote');
    forall D', mem' | Draining(D, D', m, R, mem, mem', app', -1) ensures !Faithful(D', m, mem', remote') {
      FlushFaithful(D, D', m, R, outstanding, mem, mem', app, app', remote', rank);
    }
  }

  lemma SoundFlushKeeps(D: seq<Entry>, m: map<Key, int>, R: seq<Pending>, outstanding: seq<Rma>, mem: seq<byte>,
                        app: seq<byte>, rank: int, remote: Remote)
    requires InFlight(D, m, R, outstanding) && AllApart(outstanding) && forall g :: g in outstanding ==> Fits(g, |app|)
    requires Sized(remote) && Faithful(D, m, mem, remote) && OnlyOfRank(D, m, rank)
    ensures FlushKeeps(D, m, R, outstanding, mem, app, rank, remote)
  {
    hide InFlight, Faithful, Draining, AllApart;
    var app' := Complete(app, OfRank(outstanding, rank, true), remote);
    forall D', mem' | Draining(D, D', m, R, mem, mem', app', -1) ensures Faithful(D', m, mem', remote) {
      FlushFaithful(D, D', m, R, outstanding, mem, mem', app, app', remote, rank);
      forall k | Waiting(D, m, k) && k.rank != rank
        ensures D[m[k]].pending < |R| && R[D[m[k]].pending].origin + k.size <= |app|
        ensures Due(D, m, R, app, k) == remote(k)
      {
        DueAfterFlush(D, m, R, outstanding, app, app', remote, rank, k);
        assert k.size == 0;
      }
    }
  }

  /** A flush of one rank is sound whatever the remote window holds, as far as that agrees
      with what has arrived, exactly if no entry of another rank waits for any bytes. */
  lemma FlushSound(D: seq<Entry>, o: seq<int>, M: nat, m: map<Key, int>, R: seq<Pending>, outstanding: seq<Rma>,
                   mem: seq<byte>, app: seq<byte>, rank: int, actual: Remote)
    requires RegionInv(D, o, M) && EntryIndex(D, o, m) && |mem| == M
    requires InFlight(D, m, R, outstanding) && AllApart(outstanding) && forall g :: g in outstanding ==> Fits(g, |app|)
    requires Sized(actual) && Faithful(D, m, mem, actual)
    ensures OnlyOfRank(D, m, rank) <==>
            forall remote: Remote :: Sized(remote) && Faithful(D, m, mem, remote) ==>
              FlushKeeps(D, m, R, outstanding, mem, app, rank, remote)
  {
    hide RegionInv, EntryIndex, InFlight, Faithful, Draining, AllApart;
    if OnlyOfRank(D, m, rank) {
      forall remote: Remote | Sized(remote) && Faithful(D, m, mem, remote)
        ensures FlushKeeps(D, m, R, outstanding, mem, app, rank, remote)
      {
        SoundFlushKeeps(D, m, R, outstanding, mem, app, rank, remote);
      }
    } else {
      var k :| Waiting(D, m, k) && k.size > 0 && k.rank != rank;
      var remote := WrongWindow(D, m, R, outstanding, mem, app, rank, actual, k);
      var app' := Complete(app, OfRank(outstanding, rank, true), remote);
      WaitingBounded(D, o, m, M, R, outstanding, |app|);
      DrainStarts(D, m, R, mem, app');
      var D', mem' := DrainCan(D, D, o, M, m, R, outstanding, mem, mem, app', |R| - 1);
      assert !FlushKeeps(D, m, R, outstanding, mem, app, rank, remote);
    }
  }
}
