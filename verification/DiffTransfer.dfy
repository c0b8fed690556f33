/** Sending one volume's snapshot to another cluster: changed extents framed, batched and written in
    order, or the whole image in chunks. */
module DiffTransfer {
  import opened Wrappers

  type byte = n: int | 0 <= n < 256

  type Bytes = seq<byte>

  // `int.to_bytes(k, "big")` and `int.from_bytes(b, "big")`

  function Power256(k: nat): nat {
    if k == 0 then 1 else 256 * Power256(k - 1)
  }

  function ToBytes(n: nat, k: nat): (b: Bytes)
    ensures |b| == k
  {
    if k == 0 then [] else ToBytes(n / 256, k - 1) + [n % 256]
  }

  function FromBytes(b: Bytes): nat {
    if b == [] then 0 else 256 * FromBytes(b[..|b| - 1]) + b[|b| - 1]
  }

  lemma {:induction false} BytesRoundTrip(n: nat, k: nat)
    requires n < Power256(k)
    ensures FromBytes(ToBytes(n, k)) == n
  {
    if k > 0 {
      BytesRoundTrip(n / 256, k - 1);
      assert ToBytes(n, k)[..k - 1] == ToBytes(n / 256, k - 1);
    }
  }

  /** The most significant byte comes first. */
  lemma {:induction false} BigEndian(a: Bytes, b: Bytes)
    ensures FromBytes(a + b) == FromBytes(a) * Power256(|b|) + FromBytes(b)
    ensures |a| == 1 ==> FromBytes(a) == a[0]
    decreases |b|
  {
    assert |a| == 1 ==> a[..0] == [];
    if b == [] {
      assert a + b == a;
    } else {
      var init, n := b[..|b| - 1], |b| - 1;
      assert (a + b)[..|a + b| - 1] == a + init;
      BigEndian(a, init);
      Scaled(FromBytes(a), Power256(n));
    }
  }

  lemma Scaled(x: nat, y: nat)
    ensures x * (256 * y) == 256 * (x * y)
  {
  }

  const WORD := 0x1_0000_0000_0000_0000

  lemma WordIsEightBytes()
    ensures Power256(8) == WORD
  {
    assert Power256(4) == 0x1_0000_0000;
    assert Power256(6) == 0x1_0000_0000_0000;
  }

  // Extents and parts

  /** What `diff_iterate` reports: a range, and whether it holds data in the snapshot. */
  datatype Extent = Extent(offset: nat, length: nat, exists_: bool)

  /** `image.read`: stops at the end of the image. */
  function Read(image: Bytes, offset: nat, length: nat): Bytes {
    if offset >= |image| then []
    else if offset + length <= |image| then image[offset..offset + length]
    else image[offset..]
  }

  /** `image.write`: None when the data does not fit the image. */
  function Write(image: Bytes, offset: nat, data: Bytes): Option<Bytes> {
    if offset + |data| > |image| then None
    else Some(image[..offset] + data + image[offset + |data|..])
  }

  /** Reading gives as many of the bytes as there are; writing puts them all, and nothing else, or fails. */
  lemma ReadWrite(image: Bytes, offset: nat, length: nat, data: Bytes)
    ensures var r := Read(image, offset, length);
            && |r| <= length && (|r| < length ==> offset + |r| == |image| || (r == [] && offset >= |image|))
            && forall i | 0 <= i < |r| :: offset + i < |image| && r[i] == image[offset + i]
    ensures var w := Write(image, offset, data);
            && (w.Some? <==> offset + |data| <= |image|)
            && (w.Some? ==>
                  && |w.value| == |image|
                  && forall i | 0 <= i < |image| ::
                       w.value[i] == if offset <= i < offset + |data| then data[i - offset] else image[i])
  {
  }

  /** One part of a multipart request: both headers, then the data. */
  function Frame(offset: nat, length: nat, data: Bytes): Bytes {
    ToBytes(offset, 8) + ToBytes(length, 8) + data
  }

  /** What the receiver makes of one part, however short: a slice stops at the end. */
  function ApplyPart(image: Bytes, part: Bytes): Option<Bytes> {
    var offset := FromBytes(Read(part, 0, 8));
    var length := FromBytes(Read(part, 8, 8));
    Write(image, offset, Read(part, 16, length))
  }

  function ApplyParts(image: Bytes, parts: seq<Bytes>): Option<Bytes> {
    if parts == [] then Some(image)
    else
      var before :- ApplyParts(image, parts[..|parts| - 1]);
      ApplyPart(before, parts[|parts| - 1])
  }

  lemma {:induction false} ApplyPartsConcat(image: Bytes, a: seq<Bytes>, b: seq<Bytes>)
    ensures ApplyParts(image, a + b) ==
            if ApplyParts(image, a).None? then None else ApplyParts(ApplyParts(image, a).value, b)
    decreases |b|
  {
    if b == [] {
      assert a + b == a;
    } else {
      var init := b[..|b| - 1];
      assert (a + b)[..|a + b| - 1] == a + init;
      ApplyPartsConcat(image, a, init);
    }
  }

  /** Decoding a frame gives back what was framed, for any sizes that fit the headers. */
  lemma FrameApplied(image: Bytes, offset: nat, length: nat, data: Bytes)
    requires offset < WORD && length < WORD && |data| <= length
    ensures ApplyPart(image, Frame(offset, length, data)) == Write(image, offset, data)
  {
    var part := Frame(offset, length, data);
    WordIsEightBytes();
    BytesRoundTrip(offset, 8);
    BytesRoundTrip(length, 8);
    assert part[0..8] == ToBytes(offset, 8);
    assert part[8..16] == ToBytes(length, 8);
    assert part[16..] == data;
    assert |data| == length ==> part[16..16 + length] == data;
  }

  /** On the wire: eight bytes of offset, eight of length, and the data. */
  lemma FrameBytes(offset: nat, length: nat, data: Bytes)
    requires offset < WORD && length < WORD
    ensures var part := Frame(offset, length, data);
            && |part| == 16 + |data| && part[16..] == data
            && FromBytes(part[..8]) == offset && FromBytes(part[8..16]) == length
  {
    var part := Frame(offset, length, data);
    WordIsEightBytes();
    BytesRoundTrip(offset, 8);
    BytesRoundTrip(length, 8);
    assert part[..8] == ToBytes(offset, 8) && part[8..16] == ToBytes(length, 8);
  }

  // The specification: exactly the reported extents are overwritten

  predicate InRange(e: Extent, x: nat) {
    e.offset <= x < e.offset + e.length
  }

  /** Position `x` lies in an extent that holds data. */
  ghost predicate Covered(extents: seq<Extent>, x: nat) {
    exists i :: 0 <= i < |extents| && extents[i].exists_ && InRange(extents[i], x)
  }

  ghost predicate Fits(extents: seq<Extent>, size: nat) {
    forall i | 0 <= i < |extents| :: extents[i].offset + extents[i].length <= size
  }

  /** `image` with every covered byte taken from `snapshot`. */
  ghost predicate Overlaid(image: Bytes, snapshot: Bytes, extents: seq<Extent>, result: Bytes) {
    && |result| == |image| == |snapshot|
    && forall x | 0 <= x < |image| ::
         result[x] == if Covered(extents, x) then snapshot[x] else image[x]
  }

  lemma OverlayOne(image: Bytes, snapshot: Bytes, extents: seq<Extent>, e: Extent, before: Bytes)
    requires Overlaid(image, snapshot, extents, before) && e.offset + e.length <= |snapshot|
    ensures !e.exists_ ==> Overlaid(image, snapshot, extents + [e], before)
    ensures e.exists_ ==>
            var w := Write(before, e.offset, Read(snapshot, e.offset, e.length));
            w.Some? && Overlaid(image, snapshot, extents + [e], w.value)
  {
    var all := extents + [e];
    assert all[|extents|] == e && forall i | 0 <= i < |extents| :: all[i] == extents[i];
    forall x: nat | x < |image|
      ensures Covered(all, x) <==> Covered(extents, x) || (e.exists_ && InRange(e, x))
    {
      if Covered(extents, x) {
        var i :| 0 <= i < |extents| && extents[i].exists_ && InRange(extents[i], x);
        assert all[i] == extents[i];
      }
    }
    assert e.length == 0 ==> Read(snapshot, e.offset, e.length) == [];
  }

  // The receiving cluster

  /** The parts were written up to some point. */
  ghost predicate PrefixApplied(image: Bytes, parts: seq<Bytes>, result: Bytes) {
    exists n :: 0 <= n <= |parts| && ApplyParts(image, parts[..n]) == Some(result)
  }

  /** The stream was written up to some point. */
  ghost predicate PrefixStreamed(image: Bytes, pieces: seq<Bytes>, result: Bytes) {
    exists n :: 0 <= n <= |pieces| && |Concat(pieces[..n])| <= |image|
                && result == Concat(pieces[..n]) + image[|Concat(pieces[..n])|..]
  }

  class Receiver {
    var image: Bytes

    constructor (image: Bytes)
      ensures this.image == image
    {
      this.image := image;
    }

    /** `vm_snapshot_receive_block_diff`: the parts are looked up by index and written in order. */
    method ReceiveDiff(files: map<nat, Bytes>) returns (ok: bool)
      modifies this
      ensures ok <==> |files| > 0 && ApplyParts(old(image), Present(files, |files|)).Some?
      ensures ok ==> ApplyParts(old(image), Present(files, |files|)) == Some(image)
      ensures !ok ==> PrefixApplied(old(image), Present(files, |files|), image)
    {
      hide ApplyParts, FromBytes, Present, Write, Read;
      NothingApplied(image, files);
      if |files| == 0 {
        return false;
      }
      var i := 0;
      while i < |files|
        invariant 0 <= i <= |files|
        invariant ApplyParts(old(image), Present(files, i)) == Some(image)
      {
        NextPart(old(image), files, i);
        if i in files {
          var part := files[i];
          var offset := FromBytes(Read(part, 0, 8));
          var length := FromBytes(Read(part, 8, 8));
          var written := Write(image, offset, Read(part, 16, length));
          if written.None? {
            PrefixFails(old(image), files, i, |files|);
            return false;
          }
          image := written.value;
        }
        i := i + 1;
      }
      ok := true;
    }

    /** `vm_snapshot_receive_block_full`: whatever pieces the stream delivers, until it is empty. */
    method ReceiveFull(pieces: seq<Bytes>) returns (ok: bool)
      requires forall i | 0 <= i < |pieces| :: pieces[i] != []
      modifies this
      ensures ok <==> |Concat(pieces)| <= |old(image)|
      ensures ok ==> image == Concat(pieces) + old(image)[|Concat(pieces)|..]
      ensures PrefixStreamed(old(image), pieces, image)
    {
      var i, lastChunk := 0, 0;
      assert pieces[..0] == [];
      while i < |pieces|
        invariant 0 <= i <= |pieces| && lastChunk == |Concat(pieces[..i])| <= |old(image)|
        invariant image == Concat(pieces[..i]) + old(image)[lastChunk..]
      {
        assert pieces[..i + 1][..i] == pieces[..i] && pieces[..i + 1][i] == pieces[i];
        var written := Write(image, lastChunk, pieces[i]);
        if written.None? {
          ConcatPrefix(pieces, i + 1);
          return false;
        }
        image, lastChunk := written.value, lastChunk + |pieces[i]|;
        i := i + 1;
      }
      assert pieces[..i] == pieces;
      ok := true;
    }
  }

  /** The parts found under the first `n` indices. */
  function Present(files: map<nat, Bytes>, n: nat): seq<Bytes> {
    if n == 0 then [] else Present(files, n - 1) + if n - 1 in files then [files[n - 1]] else []
  }

  lemma {:induction false} PresentPrefix(files: map<nat, Bytes>, n: nat, m: nat)
    requires n <= m
    ensures Present(files, n) <= Present(files, m)
  {
    if n < m {
      PresentPrefix(files, n, m - 1);
    }
  }

  lemma {:induction false} AllPresent(files: map<nat, Bytes>, parts: seq<Bytes>, n: nat)
    requires n <= |parts| && forall i | 0 <= i < n :: i in files && files[i] == parts[i]
    ensures Present(files, n) == parts[..n]
  {
    if n > 0 {
      AllPresent(files, parts, n - 1);
    }
  }

  lemma NothingApplied(image: Bytes, files: map<nat, Bytes>)
    ensures ApplyParts(image, Present(files, 0)) == Some(image)
    ensures PrefixApplied(image, Present(files, |files|), image)
  {
    assert Present(files, |files|)[..0] == [];
  }

  lemma NextPart(image: Bytes, files: map<nat, Bytes>, i: nat)
    ensures ApplyParts(image, Present(files, i + 1)) ==
            if i !in files || ApplyParts(image, Present(files, i)).None? then ApplyParts(image, Present(files, i))
            else ApplyPart(ApplyParts(image, Present(files, i)).value, files[i])
  {
    if i in files {
      assert Present(files, i + 1)[..|Present(files, i)|] == Present(files, i);
    } else {
      assert Present(files, i + 1) == Present(files, i);
    }
  }

  /** Once a part does not fit, the whole request has failed, with the parts before it written. */
  lemma PrefixFails(image: Bytes, files: map<nat, Bytes>, n: nat, m: nat)
    requires n < m && ApplyParts(image, Present(files, n + 1)).None?
    ensures ApplyParts(image, Present(files, m)).None?
    ensures forall r | ApplyParts(image, Present(files, n)) == Some(r) :: PrefixApplied(image, Present(files, m), r)
  {
    var parts, k := Present(files, m), |Present(files, n)|;
    PresentPrefix(files, n + 1, m);
    var rest := parts[|Present(files, n + 1)|..];
    assert parts == Present(files, n + 1) + rest;
    ApplyPartsConcat(image, Present(files, n + 1), rest);
    PresentPrefix(files, n, m);
    assert parts[..k] == Present(files, n);
  }

  function Concat(pieces: seq<Bytes>): Bytes {
    if pieces == [] then [] else Concat(pieces[..|pieces| - 1]) + pieces[|pieces| - 1]
  }

  lemma {:induction false} ConcatPrefix(pieces: seq<Bytes>, n: nat)
    requires n <= |pieces|
    ensures |Concat(pieces[..n])| <= |Concat(pieces)|
    decreases |pieces| - n
  {
    if n == |pieces| {
      assert pieces[..n] == pieces;
    } else {
      assert pieces[..n + 1][..n] == pieces[..n];
      ConcatPrefix(pieces, n + 1);
    }
  }

  // The sending cluster

  function FrameOf(snapshot: Bytes, offset: nat, length: nat): Bytes {
    Frame(offset, length, Read(snapshot, offset, length))
  }

  ghost predicate IsFrame(snapshot: Bytes, part: Bytes) {
    exists o: nat, n: nat :: o + n <= |snapshot| && part == FrameOf(snapshot, o, n)
  }

  /** Every buffered part frames a range of the snapshot. */
  ghost predicate Frames(snapshot: Bytes, parts: seq<Bytes>) {
    forall i | 0 <= i < |parts| :: IsFrame(snapshot, parts[i])
  }

  /** Every byte is either as before or as in the snapshot. */
  ghost predicate Mixed(image: Bytes, snapshot: Bytes, result: Bytes) {
    && |result| == |image| == |snapshot|
    && forall x | 0 <= x < |image| :: result[x] == image[x] || result[x] == snapshot[x]
  }

  lemma NothingSent(image: Bytes, snapshot: Bytes)
    requires |image| == |snapshot|
    ensures ApplyParts(image, []) == Some(image) && Frames(snapshot, [])
    ensures Mixed(image, snapshot, image) && Overlaid(image, snapshot, [], image)
    ensures forall r | Mixed(image, snapshot, r) :: |r| == |snapshot|
  {
  }

  lemma MixedTwice(image: Bytes, snapshot: Bytes, a: Bytes, b: Bytes)
    requires Mixed(image, snapshot, a) && Mixed(a, snapshot, b)
    ensures Mixed(image, snapshot, b)
  {
  }

  lemma FrameMixed(image: Bytes, snapshot: Bytes, part: Bytes)
    requires IsFrame(snapshot, part) && |image| == |snapshot| < WORD
    ensures ApplyPart(image, part).Some? && Mixed(image, snapshot, ApplyPart(image, part).value)
  {
    var o: nat, n: nat :| o + n <= |snapshot| && part == FrameOf(snapshot, o, n);
    FrameApplied(image, o, n, Read(snapshot, o, n));
    hide Frame, FrameOf, ApplyPart, Mixed, Read, Write;
    WriteMixed(image, snapshot, o, n);
  }

  lemma WriteMixed(image: Bytes, snapshot: Bytes, o: nat, n: nat)
    requires |image| == |snapshot| && o + n <= |snapshot|
    ensures var w := Write(image, o, Read(snapshot, o, n)); w.Some? && Mixed(image, snapshot, w.value)
  {
    assert n > 0 ==> Read(snapshot, o, n) == snapshot[o..o + n];
  }

  lemma {:induction false} FramesMixed(image: Bytes, snapshot: Bytes, parts: seq<Bytes>)
    requires Frames(snapshot, parts) && |image| == |snapshot| < WORD
    ensures ApplyParts(image, parts).Some? && Mixed(image, snapshot, ApplyParts(image, parts).value)
    decreases |parts|
  {
    if parts != [] {
      var init, last := parts[..|parts| - 1], parts[|parts| - 1];
      FramesMixed(image, snapshot, init);
      FrameMixed(ApplyParts(image, init).value, snapshot, last);
      MixedTwice(image, snapshot, ApplyParts(image, init).value, ApplyParts(image, parts).value);
    }
  }

  lemma FewerFrames(snapshot: Bytes, parts: seq<Bytes>, n: nat)
    requires Frames(snapshot, parts) && n <= |parts|
    ensures Frames(snapshot, parts[..n])
  {
    hide IsFrame;
  }

  lemma AppendPart(image: Bytes, parts: seq<Bytes>, snapshot: Bytes, offset: nat, length: nat)
    requires ApplyParts(image, parts).Some? && offset + length <= |snapshot| < WORD
    ensures ApplyParts(image, parts + [FrameOf(snapshot, offset, length)]) ==
            Write(ApplyParts(image, parts).value, offset, Read(snapshot, offset, length))
  {
    FrameApplied(ApplyParts(image, parts).value, offset, length, Read(snapshot, offset, length));
    assert (parts + [FrameOf(snapshot, offset, length)])[..|parts|] == parts;
  }

  const BATCH_SIZE := 4 * 32 * 1024 * 1024

  class Sender {
    const snapshot: Bytes
    const receiver: Receiver
    var buffer: seq<Bytes>
    var bufferSize: nat
    var batches: nat

    constructor (snapshot: Bytes, receiver: Receiver)
      ensures this.snapshot == snapshot && this.receiver == receiver
      ensures buffer == [] && bufferSize == 0 && batches == 0
    {
      this.snapshot, this.receiver := snapshot, receiver;
      buffer, bufferSize, batches := [], 0, 0;
    }

    /** One request with everything buffered. `link(k)` says how the k-th request fares: None when it
        is answered with success, Some(m) when it fails after m of its parts were written. */
    method SendBatch(link: nat -> Option<nat>) returns (ok: bool)
      requires Frames(snapshot, buffer) && buffer != []
      requires |receiver.image| == |snapshot| < WORD
      modifies this`batches, receiver
      ensures batches == old(batches) + 1
      ensures ok <==> link(old(batches)).None?
      ensures ok ==> ApplyParts(old(receiver.image), buffer) == Some(receiver.image)
      ensures link(old(batches)) == Some(0) ==> receiver.image == old(receiver.image)
      ensures Mixed(old(receiver.image), snapshot, receiver.image)
    {
      hide Frames, Mixed, ApplyParts, Present;
      ghost var image := receiver.image;
      var n := match link(batches) case None => |buffer| case Some(m) => if m < |buffer| then m else |buffer|;
      ok := link(batches).None?;
      batches := batches + 1;
      var files: map<nat, Bytes> := map i: nat | i < n :: buffer[i];
      MapSize(files, n);
      AllPresent(files, buffer, n);
      FewerFrames(snapshot, buffer, n);
      FramesMixed(image, snapshot, buffer[..n]);
      NothingSent(image, snapshot);
      assert buffer[..|buffer|] == buffer;
      if n > 0 {
        var stored := receiver.ReceiveDiff(files);
      }
    }

    /** The diff callback: reads, frames and buffers one extent, and flushes a full buffer. */
    method DiffCallback(e: Extent, link: nat -> Option<nat>) returns (ok: bool)
      requires Frames(snapshot, buffer) && e.offset + e.length <= |snapshot| < WORD
      requires |receiver.image| == |snapshot|
      modifies this, receiver
      ensures Frames(snapshot, buffer)
      ensures Mixed(old(receiver.image), snapshot, receiver.image)
      ensures ok ==> ApplyParts(receiver.image, buffer) ==
                     (if e.exists_
                      then ApplyParts(old(receiver.image), old(buffer) + [FrameOf(snapshot, e.offset, e.length)])
                      else ApplyParts(old(receiver.image), old(buffer)))
      ensures ok && link(old(batches)) == Some(0) ==> batches == old(batches)
      ensures link(old(batches)) == Some(0) ==> receiver.image == old(receiver.image)
      ensures (forall k: nat :: link(k).None?) ==> ok
      ensures batches == old(batches) + if e.exists_ && old(bufferSize) + e.length >= 0x800_0000 then 1 else 0
      ensures ok ==>
                bufferSize == if batches > old(batches) then 0 else old(bufferSize) + if e.exists_ then e.length else 0
    {
      ok := true;
      if e.exists_ {
        var data := Read(snapshot, e.offset, e.length);
        assert IsFrame(snapshot, FrameOf(snapshot, e.offset, e.length));
        buffer := buffer + [Frame(e.offset, e.length, data)];
        bufferSize := bufferSize + |data|;
        if bufferSize >= BATCH_SIZE {
          ok := SendBatch(link);
          if !ok {
            return;
          }
          buffer, bufferSize := [], 0;
        }
      }
    }

    /** All extents in the order reported, then the final flush. On success exactly the extents that
        hold data were overwritten with the snapshot's bytes; a broken transfer leaves every byte
        either as it was or as in the snapshot. */
    method SendDiff(extents: seq<Extent>, link: nat -> Option<nat>) returns (ok: bool)
      requires buffer == [] && Fits(extents, |snapshot|) && |snapshot| < WORD
      requires |receiver.image| == |snapshot|
      modifies this, receiver
      ensures ok ==> Overlaid(old(receiver.image), snapshot, extents, receiver.image)
      ensures link(old(batches)) == Some(0) ==> receiver.image == old(receiver.image)
      ensures Mixed(old(receiver.image), snapshot, receiver.image)
      ensures (forall k: nat :: link(k).None?) ==> ok
    {
      hide Overlaid, Mixed, ApplyParts, Frames, Write, Read;
      ghost var start := receiver.image;
      NothingSent(start, snapshot);
      var i := 0;
      assert extents[..0] == [];
      while i < |extents|
        invariant 0 <= i <= |extents| && |receiver.image| == |snapshot|
        invariant Frames(snapshot, buffer) && Mixed(start, snapshot, receiver.image)
        invariant ApplyParts(receiver.image, buffer).Some?
        invariant link(old(batches)) == Some(0) ==> batches == old(batches) && receiver.image == start
        invariant Overlaid(start, snapshot, extents[..i], ApplyParts(receiver.image, buffer).value)
      {
        assert extents[..i + 1] == extents[..i] + [extents[i]];
        OverlayOne(start, snapshot, extents[..i], extents[i], ApplyParts(receiver.image, buffer).value);
        AppendPart(receiver.image, buffer, snapshot, extents[i].offset, extents[i].length);
        ghost var before := receiver.image;
        ok := DiffCallback(extents[i], link);
        MixedTwice(start, snapshot, before, receiver.image);
        if !ok {
          return;
        }
        i := i + 1;
      }
      assert extents[..i] == extents;
      NothingSent(receiver.image, snapshot);
      ok := true;
      if buffer != [] {
        ghost var before := receiver.image;
        ok := SendBatch(link);
        MixedTwice(start, snapshot, before, receiver.image);
        if ok {
          buffer, bufferSize := [], 0;
        }
      }
    }

    /** The chunks of a full transfer. */
    method FullChunks(chunkSize: nat) returns (chunks: seq<Bytes>)
      requires chunkSize > 0
      ensures Concat(chunks) == snapshot
      ensures forall i | 0 <= i < |chunks| :: chunks[i] != [] && |chunks[i]| <= chunkSize
    {
      chunks := [];
      var current := 0;
      while current < |snapshot|
        invariant Concat(chunks) == snapshot[..if current <= |snapshot| then current else |snapshot|]
        invariant forall i | 0 <= i < |chunks| :: chunks[i] != [] && |chunks[i]| <= chunkSize
      {
        var chunk := Read(snapshot, current, chunkSize);
        assert (chunks + [chunk])[..|chunks|] == chunks;
        chunks := chunks + [chunk];
        current := current + chunkSize;
      }
    }

    /** A full transfer rebuilds the source on an image of its size, however the stream of chunks is cut
        into other pieces on the way. */
    method SendFull(chunkSize: nat, rechunk: seq<Bytes> -> seq<Bytes>) returns (ok: bool)
      requires chunkSize > 0 && |receiver.image| == |snapshot|
      requires forall chunks :: Concat(rechunk(chunks)) == Concat(chunks)
      requires forall chunks :: [] !in rechunk(chunks)
      modifies receiver
      ensures ok && receiver.image == snapshot
    {
      var chunks := FullChunks(chunkSize);
      var pieces := rechunk(chunks);
      assert forall i | 0 <= i < |pieces| :: pieces[i] in pieces;
      ok := receiver.ReceiveFull(pieces);
    }
  }

  lemma {:induction false} MapSize(m: map<nat, Bytes>, n: nat)
    requires forall i: nat :: i in m <==> i < n
    ensures |m| == n
  {
    if n > 0 {
      MapSize(m - {n - 1}, n - 1);
      assert m.Keys == (m - {n - 1}).Keys + {n - 1};
    } else {
      assert m == map[];
    }
  }
}
