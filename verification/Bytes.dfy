/** Bytes on a wire or in a file: fixed-width integers in both byte orders, and records that
    are laid out as consecutive fields of known widths. */
module Bytes {
  import opened Sequences

  type byte = x: int | 0 <= x < 256
  type uint16 = x: int | 0 <= x <= MAX_UINT16
  type uint32 = x: int | 0 <= x <= MAX_UINT32
  type uint64 = x: int | 0 <= x <= MAX_UINT64

  /** A SHA-256 value, and every 32-byte identifier of the system. */
  type Digest = s: seq<byte> | |s| == 32 witness seq(32, _ => 0)

  function Zeros(n: nat): (z: seq<byte>)
    ensures |z| == n && forall i :: 0 <= i < n ==> z[i] == 0
  {
    seq(n, _ => 0)
  }

  const ZERO_DIGEST: Digest := Zeros(32)

  const MAX_UINT16 := 0xFFFF
  const MAX_UINT32 := 0xFFFF_FFFF
  const MAX_INT64 := 0x7FFF_FFFF_FFFF_FFFF
  const MAX_UINT64 := 0xFFFF_FFFF_FFFF_FFFF

  /** The number of values that fit in `width` bytes. */
  function Capacity(width: nat): (c: nat)
    ensures c > 0
  {
    if width == 0 then 1 else 256 * Capacity(width - 1)
  }

  lemma Capacities()
    ensures Capacity(1) == 256
    ensures Capacity(2) == MAX_UINT16 + 1
    ensures Capacity(4) == MAX_UINT32 + 1
    ensures Capacity(8) == MAX_UINT64 + 1
  {
    assert Capacity(1) == 256 * Capacity(0);
    assert Capacity(2) == 256 * Capacity(1);
    assert Capacity(3) == 256 * Capacity(2);
    assert Capacity(4) == 256 * Capacity(3);
    assert Capacity(5) == 256 * Capacity(4);
    assert Capacity(6) == 256 * Capacity(5);
    assert Capacity(7) == 256 * Capacity(6);
    assert Capacity(8) == 256 * Capacity(7);
  }

  /** Most significant byte first; the value is reduced modulo the capacity of the field. */
  function BigEndian(n: nat, width: nat): (b: seq<byte>)
    ensures |b| == width
  {
    if width == 0 then [] else BigEndian(n / 256, width - 1) + [n % 256]
  }

  function FromBigEndian(b: seq<byte>): (n: nat)
    ensures n < Capacity(|b|)
  {
    if |b| == 0 then 0 else 256 * FromBigEndian(b[..|b| - 1]) + b[|b| - 1]
  }

  lemma {:induction false} BigEndianReadsBack(n: nat, width: nat)
    requires n < Capacity(width)
    ensures FromBigEndian(BigEndian(n, width)) == n
  {
    if width > 0 {
      BigEndianReadsBack(n / 256, width - 1);
      var b := BigEndian(n, width);
      assert b[..|b| - 1] == BigEndian(n / 256, width - 1);
    }
  }

  lemma {:induction false} BigEndianWritesBack(b: seq<byte>)
    ensures BigEndian(FromBigEndian(b), |b|) == b
  {
    if |b| > 0 {
      BigEndianWritesBack(b[..|b| - 1]);
      assert b == b[..|b| - 1] + [b[|b| - 1]];
    }
  }

  /** The first byte counts most: it stands for as many as all values of the rest. */
  lemma {:induction false} FirstCountsMost(x: byte, rest: seq<byte>)
    ensures FromBigEndian([x] + rest) == x * Capacity(|rest|) + FromBigEndian(rest)
  {
    var b := [x] + rest;
    if rest == [] {
      assert b[..0] == [] && FromBigEndian(b[..0]) == 0;
    } else {
      var n := |rest| - 1;
      FirstCountsMost(x, rest[..n]);
      assert b[..n + 1] == [x] + rest[..n];
      assert 256 * (x * Capacity(n)) == x * (256 * Capacity(n));
    }
  }

  /** Least significant byte first. */
  function LittleEndian(n: nat, width: nat): (b: seq<byte>)
    ensures |b| == width
  {
    if width == 0 then [] else [n % 256] + LittleEndian(n / 256, width - 1)
  }

  function FromLittleEndian(b: seq<byte>): (n: nat)
    ensures n < Capacity(|b|)
  {
    if |b| == 0 then 0 else b[0] + 256 * FromLittleEndian(b[1..])
  }

  lemma {:induction false} LittleEndianReadsBack(n: nat, width: nat)
    requires n < Capacity(width)
    ensures FromLittleEndian(LittleEndian(n, width)) == n
  {
    if width > 0 {
      LittleEndianReadsBack(n / 256, width - 1);
      assert LittleEndian(n, width)[1..] == LittleEndian(n / 256, width - 1);
    }
  }

  /** The last byte counts most. */
  lemma {:induction false} LastCountsMost(rest: seq<byte>, x: byte)
    ensures FromLittleEndian(rest + [x]) == FromLittleEndian(rest) + x * Capacity(|rest|)
  {
    var b := rest + [x];
    if rest == [] {
      assert b[1..] == [];
    } else {
      LastCountsMost(rest[1..], x);
      assert b[1..] == rest[1..] + [x];
      assert 256 * (x * Capacity(|rest| - 1)) == x * (256 * Capacity(|rest| - 1));
    }
  }

  lemma LowDigit(low: byte, high: nat)
    ensures (low + 256 * high) % 256 == low && (low + 256 * high) / 256 == high
  {
  }

  lemma {:induction false} LittleEndianWritesBack(b: seq<byte>)
    ensures LittleEndian(FromLittleEndian(b), |b|) == b
  {
    if |b| > 0 {
      LittleEndianWritesBack(b[1..]);
      var high := FromLittleEndian(b[1..]);
      LowDigit(b[0], high);
      assert FromLittleEndian(b) == b[0] + 256 * high;
      assert LittleEndian(FromLittleEndian(b), |b|) == [b[0]] + LittleEndian(high, |b| - 1);
      assert b == [b[0]] + b[1..];
    }
  }

  /** The bytes of an ASCII constant. */
  function Ascii(s: string): (b: seq<byte>)
    ensures |b| == |s|
  {
    seq(|s|, i requires 0 <= i < |s| => s[i] as int % 256)
  }

  /** A record is its fields, one after the other. */
  function Join<T>(fields: seq<seq<T>>): (r: seq<T>)
  {
    if fields == [] then [] else fields[0] + Join(fields[1..])
  }

  function Widths<T>(fields: seq<seq<T>>): (w: seq<nat>)
    ensures |w| == |fields|
  {
    seq(|fields|, i requires 0 <= i < |fields| => |fields[i]|)
  }

  /** The fields of a record whose widths are known; what follows the last field is dropped. */
  function Split<T>(r: seq<T>, ws: seq<nat>): (fields: seq<seq<T>>)
    requires Sum(ws) <= |r|
    ensures |fields| == |ws|
    ensures forall i :: 0 <= i < |ws| ==> |fields[i]| == ws[i]
  {
    if ws == [] then [] else [r[..ws[0]]] + Split(r[ws[0]..], ws[1..])
  }

  /** A field begins where the fields before it end. */
  lemma {:induction false} FieldLies<T>(r: seq<T>, ws: seq<nat>, k: nat)
    requires Sum(ws) <= |r| && k < |ws|
    ensures Sum(ws[..k]) + ws[k] <= |r| && Split(r, ws)[k] == r[Sum(ws[..k])..Sum(ws[..k]) + ws[k]]
  {
    if k == 0 {
      assert ws[..0] == [];
    } else {
      FieldLies(r[ws[0]..], ws[1..], k - 1);
      assert ws[..k][1..] == ws[1..][..k - 1];
    }
  }

  /** Where fields of these widths begin. */
  predicate Offsets(ws: seq<nat>, os: seq<nat>) {
    |os| == |ws| && (os != [] ==> os[0] == 0) && forall i, j :: 0 <= i && j == i + 1 < |ws| ==> os[j] == os[i] + ws[i]
  }

  lemma {:induction false} OffsetIsSum(ws: seq<nat>, os: seq<nat>, k: nat)
    requires Offsets(ws, os) && k < |ws|
    ensures Sum(ws[..k]) == os[k]
  {
    if k == 0 {
      assert ws[..0] == [];
    } else {
      var j := k - 1;
      OffsetIsSum(ws, os, j);
      SumAppend(ws[..j], ws[j]);
      assert ws[..k] == ws[..j] + [ws[j]];
    }
  }

  lemma FieldAt<T>(r: seq<T>, ws: seq<nat>, os: seq<nat>, k: nat)
    requires Sum(ws) <= |r| && Offsets(ws, os) && k < |ws|
    ensures os[k] + ws[k] <= |r| && Split(r, ws)[k] == r[os[k]..os[k] + ws[k]]
  {
    hide Sum, Split, Offsets;
    OffsetIsSum(ws, os, k);
    FieldLies(r, ws, k);
  }

  /** Reading the fields of a joined record returns the fields, whatever follows the record. */
  lemma {:induction false} SplitJoin<T>(fields: seq<seq<T>>, rest: seq<T>)
    ensures Sum(Widths(fields)) == |Join(fields)|
    ensures Split(Join(fields) + rest, Widths(fields)) == fields
  {
    if fields != [] {
      SplitJoin(fields[1..], rest);
      assert Widths(fields)[1..] == Widths(fields[1..]);
      Associative(fields[0], Join(fields[1..]), rest);
      Parts(fields[0], Join(fields[1..]) + rest);
    }
  }

  lemma SliceInTwo<T>(r: seq<T>, i: nat, j: nat)
    requires i <= j <= |r|
    ensures r[..j] == r[..i] + r[i..][..j - i]
  {
  }

  /** Joining the fields read from a record restores the record. */
  lemma {:induction false} JoinSplit<T>(r: seq<T>, ws: seq<nat>)
    requires Sum(ws) <= |r|
    ensures Join(Split(r, ws)) == r[..Sum(ws)]
  {
    if ws != [] {
      JoinSplit(r[ws[0]..], ws[1..]);
      assert Split(r, ws)[1..] == Split(r[ws[0]..], ws[1..]);
      SliceInTwo(r, ws[0], Sum(ws));
    }
  }
}
