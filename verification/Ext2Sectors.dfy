/**
 The byte layer under the block layer: reads and writes of byte ranges on a
 device that transfers whole sectors, so that a partial sector is read, patched
 and written back.
 */
module Ext2Sectors {
  import opened Arithmetic
  import opened Common
  import opened Status
  import opened Ext2Layout

  function Sec(k: nat, ss: nat): nat
    requires ss > 0
  {
    k / ss
  }

  function Off(k: nat, ss: nat): (r: nat)
    requires ss > 0
    ensures r < ss
  {
    k % ss
  }

  class BlockDevice {
    const sectorSize: nat
    var sectors: seq<seq<byte>>

    ghost predicate Shaped(s: seq<seq<byte>>) {
      0 < sectorSize <= 512 && forall i :: 0 <= i < |s| ==> |s[i]| == sectorSize
    }

    ghost predicate Valid()
      reads this
    {
      Shaped(sectors)
    }

    /** Byte k of a device with contents s; zero past its end. */
    ghost function ByteOf(s: seq<seq<byte>>, k: nat): byte
      requires Shaped(s)
    {
      if Sec(k, sectorSize) < |s| then s[Sec(k, sectorSize)][Off(k, sectorSize)] else 0
    }

    ghost function Capacity(): nat
      reads this
    {
      |sectors| * sectorSize
    }

    /** Reads `len` bytes from `offset` on; fails when they are not all on the device. */
    method ReadBytes(offset: nat, len: nat) returns (status: Status, out: seq<byte>)
      requires Valid()
      ensures len == 0 ==> status == Invalid
      ensures len > 0 ==> (status == Ok <==> offset + len <= Capacity())
      ensures status == Ok ==> |out| == len && forall k: nat :: offset <= k < offset + len ==> out[k - offset] == ByteOf(sectors, k)
    {
      hide Sec, Off;
      out := [];
      if len == 0 {
        return Invalid, out;
      }
      while |out| < len
        invariant |out| <= len && (|out| > 0 ==> offset + |out| <= Capacity())
        invariant forall k: nat :: offset <= k < offset + |out| ==> out[k - offset] == ByteOf(sectors, k)
        decreases len - |out|
      {
        var cur := offset + |out|;
        var sec, secOff := Sec(cur, sectorSize), Off(cur, sectorSize);
        SectorInside(cur, sectorSize, |sectors|);
        if sec >= |sectors| {
          return Generic, out;
        }
        var chunk := if sectorSize - secOff > len - |out| then len - |out| else sectorSize - secOff;
        SameSector(cur, sectorSize, |sectors|, chunk);
        out := out + sectors[sec][secOff..secOff + chunk];
      }
      return Ok, out;
    }

    /** Contents s are `was` with `data` laid over it from `offset` on. */
    ghost predicate Overlaid(s: seq<seq<byte>>, offset: nat, data: seq<byte>, was: seq<seq<byte>>)
      requires Shaped(s) && Shaped(was)
    {
      |s| == |was| && forall k: nat :: Sec(k, sectorSize) < |s| ==>
        ByteOf(s, k) == if offset <= k < offset + |data| then data[k - offset] else ByteOf(was, k)
    }

    /** Writes `data` from `offset` on. On a short device what fits is written and the rest reported. */
    method WriteBytes(offset: nat, data: seq<byte>) returns (status: Status, ghost done: nat)
      requires Valid()
      modifies this`sectors
      ensures Valid() && done <= |data|
      ensures |data| == 0 ==> status == Invalid
      ensures |data| > 0 ==> (status == Ok <==> offset + |data| <= Capacity())
      ensures status == Ok ==> done == |data|
      ensures status != Ok && |data| > 0 && offset <= Capacity() ==> offset + done == Capacity()
      ensures Overlaid(sectors, offset, data[..done], old(sectors))
    {
      hide Sec, Off, ByteOf, Overlaid, Zeros;
      done := 0;
      assert data[..0] == [];
      OverlaidNothing(offset);
      if |data| == 0 {
        return Invalid, 0;
      }
      var pos := 0;
      while pos < |data|
        invariant 0 <= pos <= |data| && done == pos
        invariant Valid() && |sectors| == old(|sectors|) && (pos > 0 ==> offset + pos <= Capacity())
        invariant Overlaid(sectors, offset, data[..pos], old(sectors))
      {
        var cur := offset + pos;
        var sec, secOff := Sec(cur, sectorSize), Off(cur, sectorSize);
        SectorInside(cur, sectorSize, |sectors|);
        if sec >= |sectors| {
          return Generic, pos;
        }
        var chunk := if sectorSize - secOff > |data| - pos then |data| - pos else sectorSize - secOff;
        SameSector(cur, sectorSize, |sectors|, chunk);
        var secbuf := PatchSector(sec, secOff, data[pos..pos + chunk]);
        SectorWritten(sectors, sec, secOff, chunk, secbuf, offset, data, pos, old(sectors));
        sectors := sectors[sec := secbuf];
        pos := pos + chunk;
        done := pos;
      }
      return Ok, |data|;
    }

    lemma OverlaidNothing(offset: nat)
      requires Valid()
      ensures Overlaid(sectors, offset, [], sectors)
    {
    }

    /** The sector with `bytes` put in, read from the device first unless all of it is replaced. */
    method PatchSector(sec: nat, secOff: nat, bytes: seq<byte>) returns (secbuf: seq<byte>)
      requires Valid() && sec < |sectors| && secOff + |bytes| <= sectorSize
      ensures |secbuf| == sectorSize
      ensures forall i :: 0 <= i < sectorSize ==>
                secbuf[i] == if secOff <= i < secOff + |bytes| then bytes[i - secOff] else sectors[sec][i]
    {
      secbuf := if |bytes| != sectorSize then sectors[sec] else Zeros(sectorSize);
      secbuf := secbuf[..secOff] + bytes + secbuf[secOff + |bytes|..];
    }

    lemma SectorWritten(s: seq<seq<byte>>, sec: nat, secOff: nat, chunk: nat, secbuf: seq<byte>,
                        offset: nat, data: seq<byte>, pos: nat, was: seq<seq<byte>>)
      requires Shaped(s) && Shaped(was) && sec < |s| && |secbuf| == sectorSize && secOff + chunk <= sectorSize && pos + chunk <= |data|
      requires sec == Sec(offset + pos, sectorSize) && secOff == Off(offset + pos, sectorSize)
      requires Overlaid(s, offset, data[..pos], was)
      requires forall i :: 0 <= i < sectorSize ==>
                 secbuf[i] == if secOff <= i < secOff + chunk then data[pos + i - secOff] else s[sec][i]
      ensures Overlaid(s[sec := secbuf], offset, data[..pos + chunk], was)
    {
      hide Sec, Off;
      var t := s[sec := secbuf];
      forall k: nat | Sec(k, sectorSize) < |t|
        ensures ByteOf(t, k) == if offset <= k < offset + pos + chunk then data[k - offset] else ByteOf(was, k)
      {
        WhereInSector(k, offset + pos, sectorSize);
      }
    }
  }

  /** Two positions compare like their sectors, and inside one sector like their offsets. */
  lemma WhereInSector(k: nat, c: nat, ss: nat)
    requires ss > 0
    ensures Sec(k, ss) == Sec(c, ss) ==> k - c == Off(k, ss) - Off(c, ss)
    ensures Sec(k, ss) < Sec(c, ss) ==> k < c
    ensures Sec(k, ss) > Sec(c, ss) ==> k >= c - Off(c, ss) + ss
  {
    var a, b := k / ss, c / ss;
    assert k == a * ss + k % ss && c == b * ss + c % ss;
    if a < b {
      MulMonotone(a + 1, b, ss);
    } else if a > b {
      MulMonotone(b + 1, a, ss);
    }
  }

  lemma SectorInside(k: nat, ss: nat, n: nat)
    requires ss > 0
    ensures Sec(k, ss) < n <==> k < n * ss
  {
    var a := k / ss;
    assert k == a * ss + k % ss;
    if a < n {
      MulMonotone(a + 1, n, ss);
    } else {
      MulMonotone(n, a, ss);
    }
  }

  lemma SameSector(c: nat, ss: nat, n: nat, chunk: nat)
    requires ss > 0 && Sec(c, ss) < n && Off(c, ss) + chunk <= ss
    ensures c + chunk <= n * ss
    ensures forall k: nat :: c <= k < c + chunk ==> Sec(k, ss) == Sec(c, ss) && Off(k, ss) == Off(c, ss) + k - c
  {
    hide Sec, Off;
    SectorStart(c, ss, n);
    forall k: nat | c <= k < c + chunk
      ensures Sec(k, ss) == Sec(c, ss) && Off(k, ss) == Off(c, ss) + k - c
    {
      WhereInSector(k, c, ss);
    }
  }

  lemma SectorStart(c: nat, ss: nat, n: nat)
    requires ss > 0 && Sec(c, ss) < n
    ensures c - Off(c, ss) + ss <= n * ss
  {
    var a := c / ss;
    assert c == a * ss + c % ss;
    MulMonotone(a + 1, n, ss);
  }
}
