/** Which sectors an operation writes, and what every prefix of its writes leaves
    on the disk. */
module Traces {
  import opened Bytes
  import opened BlockCache
  import opened Store
  import opened Directory
  import opened Objects
  import opened Snapshots
  import opened History

  /** The writes between p and q account for q's disk and stay within S. */
  ghost predicate Wrote(p: Fs, q: Fs, S: set<nat>) {
    && p.log <= q.log && WritesFit(Written(p, q)) && q.disk == Replay(p.disk, Written(p, q))
    && forall i :: 0 <= i < |Written(p, q)| ==> Written(p, q)[i].lba in S
  }

  predicate Hits(ws: seq<Write>, x: nat) { exists i :: 0 <= i < |ws| && ws[i].lba == x }

  lemma WroteNothing(p: Fs, q: Fs, S: set<nat>)
    requires q.disk == p.disk && q.log == p.log
    ensures Wrote(p, q, S)
  {
    assert Written(p, q) == [];
    ReplayNothing(p.disk);
  }

  lemma WroteTrans(p: Fs, q: Fs, r: Fs, S: set<nat>)
    requires Wrote(p, q, S) && Wrote(q, r, S)
    ensures Wrote(p, r, S)
  {
    hide Replay;
    TwoRuns(p, q, r);
  }

  lemma WroteOne(p: Fs, b: nat, s: Sector, S: set<nat>)
    requires b < DISK_BLOCKS && b in S
    ensures Wrote(p, WriteBlock(p, b, s), S)
  {
    var q := WriteBlock(p, b, s);
    assert Written(p, q) == [] + [Write(b, s)];
    ReplayNothing(p.disk);
    ReplaySnoc(p.disk, [], Write(b, s));
  }

  lemma WroteMore(p: Fs, q: Fs, b: nat, s: Sector, S: set<nat>)
    requires Wrote(p, q, S) && b < DISK_BLOCKS && b in S
    ensures Wrote(p, WriteBlock(q, b, s), S)
  {
    hide Wrote;
    WroteOne(q, b, s, S);
    WroteTrans(p, q, WriteBlock(q, b, s), S);
  }

  /** Memory does not matter, only the disk and the log do. */
  lemma WroteSame(p: Fs, q: Fs, p': Fs, q': Fs, S: set<nat>)
    requires Wrote(p, q, S) && p'.disk == p.disk && p'.log == p.log && q'.disk == q.disk && q'.log == q.log
    ensures Wrote(p', q', S)
  {
    assert Written(p', q') == Written(p, q);
  }

  lemma WroteAlloc(p: Fs, q: Fs, S: set<nat>)
    requires Wrote(p, q, S) && Free(q.bitmap) <= S
    ensures Wrote(p, AllocBlock(q).0, S)
  {
    hide Wrote, Free;
    var (a, b) := AllocBlock(q);
    if b != 0 {
      FreeInStore(q.bitmap, b);
      var r := WriteBlock(q, b, ZERO_SECTOR);
      WroteMore(p, q, b, ZERO_SECTOR, S);
      WroteSame(p, r, p, a, S);
    }
  }

  lemma {:induction false} WroteChunks(p: Fs, q: Fs, olds: seq<u32>, data: seq<byte>, n: nat, S: set<nat>)
    requires Wrote(p, q, S) && Free(q.bitmap) <= S && Pointers(olds) && n <= BlocksFor(|data|)
    requires forall i :: 0 <= i < 4 && olds[i] != 0 ==> olds[i] in S
    ensures var (a, _, _) := WriteChunks(q, olds, data, n);
            Wrote(p, a, S) && Free(a.bitmap) <= S
  {
    if n > 0 {
      WroteChunks(p, q, olds, data, n - 1, S);
      hide Wrote, Free, Chunk, AllocBlock;
      var (a, got, ok) := WriteChunks(q, olds, data, n - 1);
      if ok {
        if olds[n - 1] != 0 {
          WroteMore(p, a, olds[n - 1], Chunk(data, n - 1), S);
        } else {
          WroteAlloc(p, a, S);
          AllocShrinks(a);
          var (b, x) := AllocBlock(a);
          if x != 0 {
            WroteMore(p, b, x, Chunk(data, n - 1), S);
          }
        }
      }
    }
  }

  lemma AllocShrinks(fs: Fs)
    ensures var (a, b) := AllocBlock(fs);
            Free(a.bitmap) <= Free(fs.bitmap) && (b != 0 ==> b in Free(fs.bitmap) && b < DISK_BLOCKS)
  {
    hide Free;
    var (a, b) := AllocBlock(fs);
    if b != 0 {
      FreeInStore(fs.bitmap, b);
    }
  }

  lemma WroteAllocObject(p: Fs, q: Fs, kind: byte, S: set<nat>)
    requires Wrote(p, q, S) && Free(q.bitmap) <= S
    ensures Wrote(p, AllocObject(q, kind).0, S)
  {
    hide Wrote, Free, AllocBlock, NewObj;
    WroteAlloc(p, q, S);
    AllocShrinks(q);
    var (a, b) := AllocBlock(q);
    if b != 0 {
      WroteMore(p, a, b, NewObj(kind, SuperTime(q.sb)), S);
    }
  }

  lemma WroteCreateDir(p: Fs, q: Fs, S: set<nat>)
    requires Wrote(p, q, S) && Free(q.bitmap) <= S
    ensures Wrote(p, CreateDir(q).0, S)
  {
    hide Wrote, Free, AllocBlock, EmptyDir;
    WroteAlloc(p, q, S);
    AllocShrinks(q);
    var (a, b) := AllocBlock(q);
    if b != 0 {
      WroteMore(p, a, b, EmptyDir(), S);
    }
  }

  lemma WroteSnap(p: Fs, q: Fs, name: CStr, S: set<nat>)
    requires Wrote(p, q, S) && Free(q.bitmap) <= S
    ensures Wrote(p, SnapCreate(q, name).0, S)
  {
    hide Wrote, Free, AllocBlock, BuildSnap;
    var mid := SnapCreate(q, name).0;
    if q.tx.active && q.tx.dirty {
      WroteAlloc(p, q, S);
      AllocShrinks(q);
      var (a, b) := AllocBlock(q);
      if b != 0 {
        var s := BuildSnap(SuperRoot(q.sb), q.tx.newRoot, SuperTime(q.sb), name);
        WroteMore(p, a, b, s, S);
        WroteSame(p, WriteBlock(a, b, s), p, mid, S);
      }
    }
  }

  // ---- prefixes -----------------------------------------------------------

  lemma {:induction false} ReplayOutside(d: Disk, ws: seq<Write>, S: set<nat>)
    requires WritesFit(ws) && forall i :: 0 <= i < |ws| ==> ws[i].lba in S
    ensures forall b :: 0 <= b < DISK_BLOCKS && b !in S ==> Replay(d, ws)[b] == d[b]
  {
    if ws == [] {
      ReplayNothing(d);
    } else {
      var n := |ws| - 1;
      ReplayOutside(d, ws[..n], S);
      hide Replay;
      assert ws == ws[..n] + [ws[n]];
      ReplaySnoc(d, ws[..n], ws[n]);
    }
  }

  /** Every prefix of the writes leaves the blocks outside S alone. */
  lemma WrotePrefix(p: Fs, q: Fs, S: set<nat>, k: nat)
    requires Wrote(p, q, S) && k <= |Written(p, q)|
    ensures WritesFit(Written(p, q)[..k]) && forall x :: Hits(Written(p, q)[..k], x) ==> x in S
    ensures var d' := Replay(p.disk, Written(p, q)[..k]);
            forall b :: 0 <= b < DISK_BLOCKS && b !in S ==> d'[b] == p.disk[b]
  {
    hide Replay;
    ReplayOutside(p.disk, Written(p, q)[..k], S);
  }

  /** The writes from p to q stay within S but for a single one, to block x. */
  ghost predicate Once(p: Fs, q: Fs, x: nat, S: set<nat>) {
    x < DISK_BLOCKS && x !in S && exists u, s :: OnceAt(p, q, x, S, u, s)
  }

  ghost predicate OnceAt(p: Fs, q: Fs, x: nat, S: set<nat>, u: Fs, s: Sector)
    requires x < DISK_BLOCKS
  {
    Wrote(p, u, S) && Wrote(WriteBlock(u, x, s), q, S)
  }

  lemma OnceThen(p: Fs, q: Fs, r: Fs, x: nat, S: set<nat>)
    requires Once(p, q, x, S) && Wrote(q, r, S)
    ensures Once(p, r, x, S)
  {
    hide Wrote;
    var u, s :| OnceAt(p, q, x, S, u, s);
    WroteTrans(WriteBlock(u, x, s), q, r, S);
    assert OnceAt(p, r, x, S, u, s);
  }

  lemma OnceSame(p: Fs, q: Fs, p': Fs, q': Fs, x: nat, S: set<nat>)
    requires Once(p, q, x, S) && p'.disk == p.disk && p'.log == p.log && q'.disk == q.disk && q'.log == q.log
    ensures Once(p', q', x, S)
  {
    hide Wrote;
    var u, s :| OnceAt(p, q, x, S, u, s);
    WroteSame(p, u, p', u, S);
    WroteSame(WriteBlock(u, x, s), q, WriteBlock(u, x, s), q', S);
    assert OnceAt(p', q', x, S, u, s);
  }

  /** A prefix holds block x as it was or as it will be, by whether it was written. */
  ghost predicate Between(p: Fs, q: Fs, x: nat, S: set<nat>, ws: seq<Write>)
    requires x < DISK_BLOCKS
  {
    && WritesFit(ws) && (forall y :: Hits(ws, y) ==> y == x || y in S)
    && var d' := Replay(p.disk, ws);
    && (forall b :: 0 <= b < DISK_BLOCKS && b !in S && b != x ==> d'[b] == p.disk[b])
    && d'[x] == if Hits(ws, x) then q.disk[x] else p.disk[x]
  }

  lemma OncePrefix(p: Fs, q: Fs, x: nat, S: set<nat>, k: nat)
    requires Once(p, q, x, S)
    ensures p.log <= q.log && WritesFit(Written(p, q)) && q.disk == Replay(p.disk, Written(p, q))
    ensures k <= |Written(p, q)| ==> Between(p, q, x, S, Written(p, q)[..k])
  {
    hide Replay;
    var u, s :| OnceAt(p, q, x, S, u, s);
    var v := WriteBlock(u, x, s);
    WroteOne(u, x, s, {x});
    TwoRuns(p, u, v);
    TwoRuns(p, v, q);
    var n, ws := |Written(p, u)|, Written(p, q);
    assert Written(u, v) == [Write(x, s)];
    assert ws == Written(p, u) + [Write(x, s)] + Written(v, q);
    if k <= n {
      assert ws[..k] == Written(p, u)[..k];
      WrotePrefix(p, u, S, k);
    } else if k <= |ws| {
      var j := k - n - 1;
      assert Written(p, v) == Written(p, u) + [Write(x, s)];
      assert ws[..k] == Written(p, v) + Written(v, q)[..j];
      ReplayConcat(p.disk, Written(p, v), Written(v, q)[..j]);
      WrotePrefix(v, q, S, j);
      WrotePrefix(v, q, S, |Written(v, q)|);
      assert Written(v, q)[..|Written(v, q)|] == Written(v, q);
      WrotePrefix(p, u, S, n);
      assert Written(p, u)[..n] == Written(p, u);
      assert ws[..k][n] == Write(x, s);
      SplitHits(Written(p, u), Write(x, s), Written(v, q)[..j]);
    }
  }

  lemma SplitHits(a: seq<Write>, w: Write, b: seq<Write>)
    ensures forall y :: Hits(a + [w] + b, y) <==> Hits(a, y) || y == w.lba || Hits(b, y)
  {
    var all := a + [w] + b;
    forall y ensures Hits(all, y) <==> Hits(a, y) || y == w.lba || Hits(b, y) {
      if Hits(a, y) {
        var i :| 0 <= i < |a| && a[i].lba == y;
        assert all[i].lba == y;
      }
      if y == w.lba {
        assert all[|a|].lba == y;
      }
      if Hits(b, y) {
        var i :| 0 <= i < |b| && b[i].lba == y;
        assert all[|a| + 1 + i].lba == y;
      }
      if Hits(all, y) {
        var i :| 0 <= i < |all| && all[i].lba == y;
        assert i < |a| ==> a[i].lba == y;
        assert i > |a| ==> b[i - |a| - 1].lba == y;
      }
    }
  }

  lemma OnceHits(p: Fs, q: Fs, x: nat, S: set<nat>)
    requires Once(p, q, x, S)
    ensures p.log <= q.log && Hits(Written(p, q), x)
  {
    hide Replay;
    var u, s :| OnceAt(p, q, x, S, u, s);
    var v := WriteBlock(u, x, s);
    WroteOne(u, x, s, {x});
    TwoRuns(p, u, v);
    TwoRuns(p, v, q);
    assert Written(p, q)[|Written(p, u)|] == Write(x, s);
  }
}
