/** Splitting one SPI read into chunks below the DMA threshold (drivers/sensor_spi.c). */
module Pio {
  import opened Text

  const PIO_CHUNK := 95
  const SLOTS := 14  // `struct spi_transfer txfers[14]`; slot 0 carries the command byte

  /** A receive transfer: where its bytes go, and how many. */
  datatype Xfer = Xfer(off: nat, len: nat)

  /** The transfers the loop appends for `remain` bytes from `off` on. */
  function Chunks(remain: int, off: nat): seq<Xfer>
    decreases remain
  {
    if remain <= 0 then []
    else
      var len := if remain > PIO_CHUNK then PIO_CHUNK else remain;
      [Xfer(off, len)] + Chunks(remain - len, off + len)
  }

  function CeilDiv(x: int): int { if x <= 0 then 0 else (x + PIO_CHUNK - 1) / PIO_CHUNK }

  /** The chunk loop, on the driver's array. It may run past the array's end unless the array is long enough. */
  method PlanPio(target: int, txfers: array<Xfer>) returns (used: nat)
    requires CeilDiv(target) < txfers.Length
    modifies txfers
    ensures used == 1 + CeilDiv(target) <= txfers.Length
    ensures txfers[1..used] == Chunks(target, 0)
    ensures txfers[0] == old(txfers[0])
  {
    var remain, offset, i := target, 0, 1;
    while remain > 0
      invariant 0 <= offset && 1 <= i && i + CeilDiv(remain) == 1 + CeilDiv(target) && i <= txfers.Length
      invariant txfers[1..i] + Chunks(remain, offset) == Chunks(target, 0)
      invariant txfers[0] == old(txfers[0])
    {
      var chunk := if remain > PIO_CHUNK then PIO_CHUNK else remain;
      ghost var done := txfers[1..i];
      txfers[i] := Xfer(offset, chunk);
      assert txfers[1..i + 1] == done + [Xfer(offset, chunk)];
      Assoc(done, [Xfer(offset, chunk)], Chunks(remain - chunk, offset + chunk));
      offset := offset + chunk;
      remain := remain - chunk;
      i := i + 1;
    }
    return i;
  }

  /** The chunks are 1 to 95 bytes long, each starts where the one before ends, and they end at `off + remain`. */
  lemma {:induction false} ChunksTile(remain: int, off: nat)
    ensures var xs := Chunks(remain, off);
            && |xs| == (if remain <= 0 then 0 else (remain + 94) / 95)
            && (forall i :: 0 <= i < |xs| ==> 1 <= xs[i].len <= 95)
            && (forall i :: 0 <= i < |xs| - 1 ==> xs[i].len == 95)
            && (forall i :: 0 <= i < |xs| - 1 ==> xs[i].off + xs[i].len == xs[i + 1].off)
            && (remain > 0 ==> xs[0].off == off && xs[|xs| - 1].off + xs[|xs| - 1].len == off + remain)
    decreases remain
  {
    if remain > 0 {
      var len := if remain > PIO_CHUNK then PIO_CHUNK else remain;
      ChunksTile(remain - len, off + len);
    }
  }

  /** The array of 14 holds the plan exactly up to 1235 bytes. */
  lemma FitsExactlyWhen(target: int)
    ensures SLOTS == 14 && (1 + |Chunks(target, 0)| <= 14 <==> target <= 1235)
  {
    ChunksTile(target, 0);
  }

  /** The receive buffer after the transfers, which take the device's bytes in order. */
  function Receive(rx: seq<Byte>, xs: seq<Xfer>, stream: seq<Byte>): seq<Byte>
    decreases xs
  {
    if xs == [] then rx
    else
      var x := xs[0];
      if x.off + x.len > |rx| || x.len > |stream| then rx
      else Receive(Splice(rx, x.off, stream[..x.len]), xs[1..], stream[x.len..])
  }

  lemma ReceiveCons(rx: seq<Byte>, x: Xfer, xs: seq<Xfer>, stream: seq<Byte>)
    requires x.off + x.len <= |rx| && x.len <= |stream|
    ensures Receive(rx, [x] + xs, stream) == Receive(Splice(rx, x.off, stream[..x.len]), xs, stream[x.len..])
  {
    assert ([x] + xs)[1..] == xs;
  }

  /** The buffer with a stretch from off on replaced. */
  function Splice(rx: seq<Byte>, off: nat, bytes: seq<Byte>): (r: seq<Byte>)
    requires off + |bytes| <= |rx|
    ensures |r| == |rx|
  {
    rx[..off] + bytes + rx[off + |bytes|..]
  }

  /** Replacing nothing, or everything. */
  lemma SpliceEnds(rx: seq<Byte>, off: nat, bytes: seq<Byte>)
    requires off + |bytes| <= |rx|
    ensures bytes == [] ==> Splice(rx, off, bytes) == rx
    ensures |bytes| == |rx| ==> Splice(rx, off, bytes) == bytes
  {
  }

  /** Replacing two neighbouring stretches, one after the other or at once. */
  lemma SpliceInTwo(rx: seq<Byte>, off: nat, a: seq<Byte>, b: seq<Byte>)
    requires off + |a| + |b| <= |rx|
    ensures Splice(Splice(rx, off, a), off + |a|, b) == Splice(rx, off, a + b)
  {
    var rx' := Splice(rx, off, a);
    assert rx'[..off + |a|] == rx[..off] + a;
    assert rx'[off + |a| + |b|..] == rx[off + |a| + |b|..];
  }

  lemma TakeInTwo(s: seq<Byte>, i: nat, n: nat)
    requires i <= n <= |s|
    ensures s[..n] == s[..i] + s[i..][..n - i]
  {
  }

  lemma {:induction false} ChunksReceive(rx: seq<Byte>, remain: nat, off: nat, stream: seq<Byte>)
    requires off + remain <= |rx| && remain <= |stream|
    ensures Receive(rx, Chunks(remain, off), stream) == Splice(rx, off, stream[..remain])
    decreases remain
  {
    if remain == 0 {
      SpliceEnds(rx, off, stream[..remain]);
    } else {
      var len := if remain > PIO_CHUNK then PIO_CHUNK else remain;
      var a, rest := stream[..len], stream[len..];
      ReceiveCons(rx, Xfer(off, len), Chunks(remain - len, off + len), stream);
      ChunksReceive(Splice(rx, off, a), remain - len, off + len, rest);
      SpliceInTwo(rx, off, a, rest[..remain - len]);
      TakeInTwo(stream, len, remain);
    }
  }

  /** Chunked and single-transfer reads leave the same buffer, for every length. */
  lemma PioEqualsDma(target: nat, rx: seq<Byte>, stream: seq<Byte>)
    requires |rx| == target && target <= |stream|
    ensures Receive(rx, Chunks(target, 0), stream) == Receive(rx, [Xfer(0, target)], stream) == stream[..target]
  {
    ChunksReceive(rx, target, 0, stream);
    ReceiveCons(rx, Xfer(0, target), [], stream);
    assert [Xfer(0, target)] + [] == [Xfer(0, target)];
    SpliceEnds(rx, 0, stream[..target]);
  }
}
