/** The MPI side of a cached window, as far as a get-only client sees it: the remote bytes,
    the memory of the application, and the gets that were issued but not yet flushed. */
module Window {
  import opened Descriptors

  newtype byte = x: int | 0 <= x < 0x100

  type Remote = Key -> seq<byte>

  /** A get in progress: the bytes of key are to arrive at address origin. */
  datatype Rma = Rma(origin: nat, key: Key)

  ghost predicate Sized(remote: Remote) {
    forall k :: |remote(k)| == k.size
  }

  /** mem with data written at position `at`. */
  function Write(mem: seq<byte>, at: nat, data: seq<byte>): (r: seq<byte>)
    ensures |r| == |mem|
    ensures forall i :: 0 <= i < |mem| ==> r[i] == if at <= i < at + |data| then data[i - at] else mem[i]
  {
    seq(|mem|, i requires 0 <= i < |mem| => if at <= i < at + |data| then data[i - at] else mem[i])
  }

  lemma WriteElsewhere(mem: seq<byte>, at: nat, data: seq<byte>, a: nat, n: nat)
    requires a + n <= |mem| && (a + n <= at || at + |data| <= a)
    ensures Write(mem, at, data)[a..a + n] == mem[a..a + n]
  {
  }

  lemma WrittenThere(mem: seq<byte>, at: nat, data: seq<byte>)
    requires at + |data| <= |mem|
    ensures Write(mem, at, data)[at..at + |data|] == data
  {
  }

  /** What the memory holds when the given gets have completed, in order. */
  ghost function Complete(app: seq<byte>, gets: seq<Rma>, remote: Remote): (r: seq<byte>)
    ensures |r| == |app|
  {
    if gets == [] then app
    else
      var g := gets[|gets| - 1];
      Write(Complete(app, gets[..|gets| - 1], remote), g.origin, remote(g.key))
  }

  ghost predicate Fits(g: Rma, n: nat) { g.origin + g.key.size <= n }

  /** Two gets deliver to different addresses. */
  ghost predicate Apart(g: Rma, g': Rma) {
    g.origin + g.key.size <= g'.origin || g'.origin + g'.key.size <= g.origin
  }

  /** Outstanding gets deliver to disjoint parts of the memory. */
  ghost predicate AllApart(gets: seq<Rma>) {
    forall i, j :: 0 <= i < j < |gets| ==> Apart(gets[i], gets[j])
  }

  /** A write of n bytes at `at` does not touch the bytes that get g delivers. */
  ghost predicate Clear(g: Rma, at: nat, n: nat) { Apart(g, Rma(at, Key(0, 0, n))) }

  lemma WriteCommutes(mem: seq<byte>, a: nat, x: seq<byte>, b: nat, y: seq<byte>)
    requires a + |x| <= b || b + |y| <= a
    ensures Write(Write(mem, a, x), b, y) == Write(Write(mem, b, y), a, x)
  {
  }

  /** Bytes written ahead of the gets in progress, to other addresses, stay where they are. */
  lemma {:induction false} CompleteAfterWrite(app: seq<byte>, gets: seq<Rma>, remote: Remote, at: nat, data: seq<byte>)
    requires Sized(remote) && forall h :: h in gets ==> Clear(h, at, |data|)
    ensures Complete(Write(app, at, data), gets, remote) == Write(Complete(app, gets, remote), at, data)
  {
    if gets == [] {
    } else {
      var r, h := gets[..|gets| - 1], gets[|gets| - 1];
      assert h in gets;
      CompleteAfterWrite(app, r, remote, at, data);
      WriteCommutes(Complete(app, r, remote), at, data, h.origin, remote(h.key));
    }
  }

  /** Where no get delivers, the memory is what it was. */
  lemma {:induction false} CompleteAt(app: seq<byte>, gets: seq<Rma>, remote: Remote, a: nat)
    requires Sized(remote) && a < |app| && forall h :: h in gets ==> Clear(h, a, 1)
    ensures Complete(app, gets, remote)[a] == app[a]
  {
    if gets == [] {
    } else {
      assert gets[|gets| - 1] in gets;
      CompleteAt(app, gets[..|gets| - 1], remote, a);
    }
  }

  /** What gets deliver depends on the bytes they fetch only. */
  lemma {:induction false} CompleteUnder(app: seq<byte>, gets: seq<Rma>, remote: Remote, remote': Remote)
    requires forall g :: g in gets ==> remote'(g.key) == remote(g.key)
    ensures Complete(app, gets, remote') == Complete(app, gets, remote)
  {
    if gets == [] {
    } else {
      assert gets[|gets| - 1] in gets;
      CompleteUnder(app, gets[..|gets| - 1], remote, remote');
    }
  }

  /** Every completed get has delivered its bytes. */
  lemma {:induction false} CompleteDelivers(app: seq<byte>, gets: seq<Rma>, remote: Remote, i: nat)
    requires Sized(remote) && AllApart(gets) && i < |gets| && Fits(gets[i], |app|)
    ensures Complete(app, gets, remote)[gets[i].origin..gets[i].origin + gets[i].key.size] == remote(gets[i].key)
  {
    var (r, h, g) := (gets[..|gets| - 1], gets[|gets| - 1], gets[i]);
    if i == |gets| - 1 {
      WrittenThere(Complete(app, r, remote), g.origin, remote(g.key));
    } else {
      assert r[i] == gets[i] && Apart(g, h);
      CompleteDelivers(app, r, remote, i);
      var c, d := Complete(app, r, remote), Complete(app, gets, remote);
      assert forall x :: g.origin <= x < g.origin + g.key.size ==> d[x] == c[x];
      assert d[g.origin..g.origin + g.key.size] == c[g.origin..g.origin + g.key.size];
    }
  }

  /** Gets leave alone what lies apart from them. */
  lemma {:induction false} CompleteElsewhere(app: seq<byte>, gets: seq<Rma>, remote: Remote, g: Rma)
    requires Sized(remote) && Fits(g, |app|) && forall h :: h in gets ==> Apart(h, g)
    ensures Complete(app, gets, remote)[g.origin..g.origin + g.key.size] == app[g.origin..g.origin + g.key.size]
  {
    if gets == [] {
    } else {
      var r, h := gets[..|gets| - 1], gets[|gets| - 1];
      assert h in gets && forall x :: x in r ==> x in gets;
      CompleteElsewhere(app, r, remote, g);
      var c, d := Complete(app, r, remote), Complete(app, gets, remote);
      assert forall x :: g.origin <= x < g.origin + g.key.size ==> d[x] == c[x];
      assert d[g.origin..g.origin + g.key.size] == c[g.origin..g.origin + g.key.size];
    }
  }

  lemma ApartIn(gets: seq<Rma>, g: Rma, h: Rma)
    requires AllApart(gets) && g in gets && h in gets && g != h
    ensures Apart(g, h)
  {
  }

  /** The gets of one target rank, and the others. */
  function OfRank(gets: seq<Rma>, rank: int, yes: bool): (r: seq<Rma>)
    ensures forall g :: g in r <==> g in gets && (g.key.rank == rank) == yes
    ensures |r| <= |gets|
  {
    if gets == [] then []
    else
      var (r, g) := (OfRank(gets[..|gets| - 1], rank, yes), gets[|gets| - 1]);
      if (g.key.rank == rank) == yes then r + [g] else r
  }

  lemma {:induction false} OfRankApart(gets: seq<Rma>, rank: int, yes: bool)
    requires AllApart(gets)
    ensures AllApart(OfRank(gets, rank, yes))
  {
    if gets == [] {
    } else {
      var (r, g) := (gets[..|gets| - 1], gets[|gets| - 1]);
      OfRankApart(r, rank, yes);
      var s := OfRank(r, rank, yes);
      assert forall h :: h in r ==> Apart(h, g);
      assert forall i :: 0 <= i < |s| ==> s[i] in r;
    }
  }

  /** Completing the gets of one rank first, and the others later, comes to the same. */
  lemma {:induction false} SplitRank(app: seq<byte>, gets: seq<Rma>, rank: int, remote: Remote)
    requires Sized(remote) && AllApart(gets)
    ensures Complete(Complete(app, OfRank(gets, rank, true), remote), OfRank(gets, rank, false), remote) ==
            Complete(app, gets, remote)
  {
    if gets == [] {
    } else {
      var r, g := gets[..|gets| - 1], gets[|gets| - 1];
      SplitRank(app, r, rank, remote);
      var yes, no := OfRank(r, rank, true), OfRank(r, rank, false);
      if g.key.rank == rank {
        assert OfRank(gets, rank, true)[..|yes|] == yes;
        forall h | h in no ensures Clear(h, g.origin, g.key.size) {
          var i :| 0 <= i < |r| && r[i] == h;
          assert Apart(gets[i], gets[|gets| - 1]);
        }
        CompleteAfterWrite(Complete(app, yes, remote), no, remote, g.origin, remote(g.key));
      } else {
        assert OfRank(gets, rank, false)[..|no|] == no;
      }
    }
  }

  method MemCopy(to: array<byte>, at: nat, from: array<byte>, pos: nat, n: nat)
    requires to != from && at + n <= to.Length && pos + n <= from.Length
    modifies to
    ensures to[..] == Write(old(to[..]), at, from[pos..pos + n])
  {
    for i := 0 to n
      invariant forall x :: 0 <= x < to.Length ==>
                  to[x] == if at <= x < at + i then from[x - at + pos] else old(to[x])
    {
      to[at + i] := from[pos + i];
    }
  }

  class RmaWindow {
    const app: array<byte>

    var remote: Remote
    var outstanding: seq<Rma>

    ghost predicate Valid()
      reads this
    {
      Sized(remote) && AllApart(outstanding) && forall g :: g in outstanding ==> Fits(g, app.Length)
    }

    constructor (app: array<byte>, remote: Remote)
      requires Sized(remote)
      ensures Valid() && this.app == app && this.remote == remote && outstanding == []
    {
      this.app := app;
      this.remote := remote;
      outstanding := [];
    }

    /** The origin of a new get lies in the memory, and no get in progress delivers there. */
    ghost predicate CanGet(origin: nat, key: Key)
      reads this
    {
      Fits(Rma(origin, key), app.Length) && forall g :: g in outstanding ==> Apart(g, Rma(origin, key))
    }

    method Get(origin: nat, key: Key)
      requires Valid() && CanGet(origin, key)
      modifies this`outstanding
      ensures Valid() && outstanding == old(outstanding) + [Rma(origin, key)]
    {
      outstanding := outstanding + [Rma(origin, key)];
    }

    /** The bytes of one get arrive. */
    method Deliver(g: Rma)
      requires Sized(remote) && Fits(g, app.Length)
      modifies app
      ensures app[..] == Write(old(app[..]), g.origin, remote(g.key))
    {
      var data := remote(g.key);
      for i := 0 to |data|
        invariant forall x :: 0 <= x < app.Length ==>
                    app[x] == if g.origin <= x < g.origin + i then data[x - g.origin] else old(app[x])
      {
        app[g.origin + i] := data[i];
      }
    }

    /** Completes the gets that target the given rank. */
    method Flush(rank: int)
      requires Valid()
      modifies this`outstanding, app
      ensures Valid() && outstanding == OfRank(old(outstanding), rank, false)
      ensures app[..] == Complete(old(app[..]), OfRank(old(outstanding), rank, true), remote)
    {
      var gets := OfRank(outstanding, rank, true);
      OfRankApart(outstanding, rank, false);
      outstanding := OfRank(outstanding, rank, false);
      for i := 0 to |gets|
        invariant outstanding == OfRank(old(outstanding), rank, false)
        invariant app[..] == Complete(old(app[..]), gets[..i], remote)
      {
        assert gets[..i + 1][..i] == gets[..i];
        Deliver(gets[i]);
      }
      assert gets[..|gets|] == gets;
    }
  }
}
