/** Pipes.  Each method is what a thread does between taking the pipe's lock and giving it up, to
    return or to sleep; threads interleave at those points in any order. */
module Pipes {
  const PIPESIZE := 512
  const WRAP := 0x1_0000_0000

  datatype Outcome = Returns(n: int) | Sleeps

  lemma SameModulo(a: nat, b: nat)
    requires a <= b < a + WRAP
    ensures a % WRAP == b % WRAP <==> a == b
  {
    assert b % WRAP == if a % WRAP + (b - a) < WRAP then a % WRAP + (b - a) else a % WRAP + (b - a) - WRAP by {
      Shifted(a, b - a);
    }
  }

  lemma Shifted(a: nat, d: nat)
    requires d < WRAP
    ensures (a + d) % WRAP == if a % WRAP + d < WRAP then a % WRAP + d else a % WRAP + d - WRAP
  {
  }

  /** The buffer index of a wrapped counter is that of the true count. */
  lemma IndexWraps(a: nat)
    ensures a % WRAP % PIPESIZE == a % PIPESIZE
  {
    var q := a / WRAP;
    assert a == q * WRAP + a % WRAP;
    assert q * WRAP == (q * 0x80_0000) * PIPESIZE;
  }

  lemma DistinctIndex(j: nat, k: nat)
    requires j < k < j + PIPESIZE
    ensures j % PIPESIZE != k % PIPESIZE
  {
  }

  class Pipe {
    var data: seq<nat>
    var nread: nat
    var nwrite: nat
    var readopen: bool
    var writeopen: bool
    var freed: bool
    ghost var put: seq<nat>     // every byte ever written
    ghost var taken: nat        // how many of them have been taken out

    /** At most PIPESIZE bytes are buffered, and they are the next ones to come out. */
    ghost predicate Valid()
      reads this
    {
      && |data| == PIPESIZE && taken <= |put| <= taken + PIPESIZE
      && nread == taken % WRAP && nwrite == |put| % WRAP
      && (forall k :: taken <= k < |put| ==> data[k % PIPESIZE] == put[k])
      && freed == (!readopen && !writeopen)
    }

    /** pipealloc */
    constructor ()
      ensures Valid() && readopen && writeopen && put == [] && taken == 0
    {
      data := seq(PIPESIZE, _ => 0);
      nread, nwrite, readopen, writeopen, freed, put, taken := 0, 0, true, true, false, [], 0;
    }

    /** The wrapped counters still tell a full and an empty buffer apart from all others. */
    lemma Counters()
      requires Valid()
      ensures nread == nwrite <==> taken == |put|
      ensures nwrite == (nread + PIPESIZE) % WRAP <==> |put| == taken + PIPESIZE
      ensures nread % PIPESIZE == taken % PIPESIZE && nwrite % PIPESIZE == |put| % PIPESIZE
    {
      SameModulo(taken, |put|);
      SameModulo(|put|, taken + PIPESIZE);
      Shifted(taken, PIPESIZE);
      IndexWraps(taken);
      IndexWraps(|put|);
    }

    method PutByte(ch: nat)
      requires Valid() && |put| < taken + PIPESIZE
      modifies this`data, this`nwrite, this`put
      ensures Valid() && put == old(put) + [ch]
    {
      Counters();
      ghost var n := |put|;
      data := data[nwrite % PIPESIZE := ch];
      nwrite := (nwrite + 1) % WRAP;
      put := put + [ch];
      Shifted(n, 1);
      forall k | taken <= k < n ensures data[k % PIPESIZE] == put[k] {
        DistinctIndex(k, n);
      }
    }

    method TakeByte() returns (ch: nat)
      requires Valid() && taken < |put|
      modifies this`nread, this`taken
      ensures Valid() && taken == old(taken) + 1 && ch == put[old(taken)]
    {
      Counters();
      ch := data[nread % PIPESIZE];
      Shifted(taken, 1);
      nread := (nread + 1) % WRAP;
      taken := taken + 1;
    }

    /** pipewrite from byte i on, until it returns or the buffer is full.  Before byte k it sees that the
        process has been killed if k is in killed, which needs another lock than the pipe's and so can
        happen half-way; copying byte k in fails for k in faults. */
    method Write(src: seq<nat>, i: nat, killed: set<nat>, faults: set<nat>) returns (r: Outcome, j: nat)
      requires Valid() && !freed && i <= |src|
      modifies this`data, this`nwrite, this`put
      ensures Valid() && i <= j <= |src| && put == old(put) + src[i..j]
      ensures forall k :: i <= k < j ==> k !in killed && k !in faults
      ensures j > i ==> readopen
      ensures r.Sleeps? <==>
        j < |src| && readopen && j !in killed && |put| == taken + PIPESIZE
      ensures r == Returns(-1) <==> j < |src| && (!readopen || j in killed)
      ensures r.Returns? && r.n != -1 ==> r.n == j && (j == |src| || j in faults)
    {
      j := i;
      assert src[i..i] == [];
      while j < |src|
        invariant i <= j <= |src| && Valid() && put == old(put) + src[i..j]
        invariant j > i ==> readopen
        invariant forall k :: i <= k < j ==> k !in killed && k !in faults
        decreases |src| - j
      {
        if !readopen || j in killed {
          return Returns(-1), j;
        }
        Counters();
        if nwrite == (nread + PIPESIZE) % WRAP {
          return Sleeps, j;
        }
        if j in faults {
          break;
        }
        PutByte(src[j]);
        assert src[i..j] + [src[j]] == src[i..j + 1];
        j := j + 1;
      }
      r := Returns(j);
    }

    /** piperead, from a wakeup (or the call) until it returns or finds the pipe empty with the write
        end open; copying byte k out fails for k in faults, which loses that byte. */
    method Read(n: nat, killed: bool, faults: set<nat>) returns (r: Outcome, out: seq<nat>)
      requires Valid() && !freed
      modifies this`nread, this`taken
      ensures Valid() && old(taken) <= taken
      ensures r.Sleeps? ==> taken == old(taken) == |put| && writeopen && !killed && out == []
      ensures r.Returns? && r.n == -1 ==> taken == old(taken) == |put| && writeopen && killed && out == []
      ensures r.Returns? && r.n != -1 ==>
        && r.n == |out| <= n && old(taken) + |out| <= |put| && out == put[old(taken)..old(taken) + |out|]
        && (|out| == n || taken == |put| || |out| in faults)
        && taken == old(taken) + |out| + (if |out| < n && |out| in faults && old(taken) + |out| < |put| then 1 else 0)
        && (r.n == 0 && n > 0 && 0 !in faults ==> !writeopen && taken == |put|)
    {
      Counters();
      out := [];
      if nread == nwrite && writeopen {
        if killed {
          return Returns(-1), [];
        }
        return Sleeps, [];
      }
      while |out| < n
        invariant Valid() && |out| <= n && taken == old(taken) + |out| && out == put[old(taken)..taken]
        invariant forall k :: 0 <= k < |out| ==> k !in faults
        invariant |out| == 0 ==> taken == |put| ==> !writeopen
        decreases n - |out|
      {
        Counters();
        if nread == nwrite {
          break;
        }
        var ch := TakeByte();
        if |out| in faults {
          break;
        }
        out := out + [ch];
      }
      r := Returns(|out|);
    }

    /** pipeclose: the page goes back when the second end closes, and only then. */
    method Close(writable: bool)
      requires Valid() && if writable then writeopen else readopen
      modifies this`readopen, this`writeopen, this`freed
      ensures Valid() && !old(freed)
      ensures readopen == (old(readopen) && writable) && writeopen == (old(writeopen) && !writable)
      ensures freed <==> !readopen && !writeopen
    {
      if writable {
        writeopen := false;
      } else {
        readopen := false;
      }
      if !readopen && !writeopen {
        freed := true;
      }
    }
  }
}
