/** `vm_worker_create_mirror`: keeping a remote copy of a volume up to date by sending, again and
    again, the difference between a new snapshot and one both clusters list. */
module Mirror {
  import opened Wrappers
  import opened DiffTransfer

  /** A volume's snapshots, oldest first, and the positions written between each and the next. */
  datatype History = History(images: seq<Bytes>, writes: seq<set<nat>>)

  ghost predicate ValidHistory(h: History, size: nat) {
    && |h.images| == |h.writes| + 1
    && (forall i | 0 <= i < |h.images| :: |h.images[i]| == size)
    && (forall i, x | 0 <= i < |h.writes| && 0 <= x < size && x !in h.writes[i] ::
          h.images[i + 1][x] == h.images[i][x])
  }

  /** The contract of `diff_iterate`: what was written since the parent is reported as data. */
  ghost predicate Reports(h: History, parent: nat, extents: seq<Extent>, size: nat)
    requires ValidHistory(h, size)
  {
    && Fits(extents, size)
    && forall i, x | parent <= i < |h.writes| && 0 <= x < size && x in h.writes[i] :: Covered(extents, x)
  }

  function Newest(h: History): Bytes
    requires |h.images| > 0
  {
    h.images[|h.images| - 1]
  }

  lemma {:induction false} Unwritten(h: History, size: nat, i: nat, j: nat, x: nat)
    requires ValidHistory(h, size) && i <= j < |h.images| && x < size
    requires forall k | i <= k < j :: x !in h.writes[k]
    ensures h.images[i][x] == h.images[j][x]
    decreases j - i
  {
    if i < j {
      assert x !in h.writes[i];
      Unwritten(h, size, i + 1, j, x);
    }
  }

  /** The byte at `x` is the one of some snapshot not older than `base`. */
  ghost predicate Stems(h: History, size: nat, base: nat, x: nat, b: byte)
    requires ValidHistory(h, size) && x < size
  {
    exists i :: base <= i < |h.images| && b == h.images[i][x]
  }

  /** Every byte of the mirror is that byte of some snapshot, none older than `base`. */
  ghost predicate Holds(h: History, size: nat, base: nat, mirror: Bytes)
    requires ValidHistory(h, size)
  {
    && |mirror| == size
    && forall x | 0 <= x < size :: Stems(h, size, base, x, mirror[x])
  }

  /** The diff from any shared ancestor no newer than `base` turns such a mirror into the newest
      snapshot: a complete copy of any snapshot after the ancestor, or the remains of broken
      transfers on top of one. */
  lemma Converges(h: History, size: nat, base: nat, parent: nat, mirror: Bytes, extents: seq<Extent>, result: Bytes)
    requires ValidHistory(h, size) && Holds(h, size, base, mirror) && parent <= base
    requires Reports(h, parent, extents, size)
    requires Overlaid(mirror, Newest(h), extents, result)
    ensures result == Newest(h)
  {
    var n := |h.images| - 1;
    forall x | 0 <= x < size ensures result[x] == h.images[n][x] {
      if !Covered(extents, x) {
        assert Stems(h, size, base, x, mirror[x]);
        var i :| base <= i < |h.images| && mirror[x] == h.images[i][x];
        Unwritten(h, size, i, n, x);
      }
    }
  }

  ghost predicate AlwaysConverges(base: nat, parent: nat, newest: nat) {
    forall h: History, size: nat, mirror: Bytes, extents: seq<Extent>, result: Bytes |
      && ValidHistory(h, size) && |h.images| == newest + 1 && Holds(h, size, base, mirror)
      && Reports(h, parent, extents, size) && Overlaid(mirror, Newest(h), extents, result) ::
      result == Newest(h)
  }

  /** And only such an ancestor will do: from a newer one there is a history, a mirror and a faithful
      diff that leave the mirror wrong. */
  lemma ConvergesExactly(base: nat, parent: nat, newest: nat)
    requires base <= newest && parent <= newest
    ensures AlwaysConverges(base, parent, newest) <==> parent <= base
  {
    if parent <= base {
      forall h: History, size: nat, mirror: Bytes, extents: seq<Extent>, result: Bytes |
        && ValidHistory(h, size) && |h.images| == newest + 1 && Holds(h, size, base, mirror)
        && Reports(h, parent, extents, size) && Overlaid(mirror, Newest(h), extents, result)
        ensures result == Newest(h)
      {
        Converges(h, size, base, parent, mirror, extents, result);
      }
    } else {
      var images: seq<Bytes> := seq(newest + 1, i requires 0 <= i <= newest => if i <= base then [0] else [1]);
      var writes: seq<set<nat>> := seq(newest, i requires 0 <= i < newest => if i == base then {0} else {});
      var h := History(images, writes);
      var mirror: Bytes := [0];
      assert ValidHistory(h, 1);
      assert h.images[base] == mirror;
      assert Stems(h, 1, base, 0, mirror[0]);
      assert Holds(h, 1, base, mirror);
      assert Reports(h, parent, [], 1);
      assert Overlaid(mirror, Newest(h), [], mirror);
      assert mirror != Newest(h);
    }
  }

  function Extend(h: History, image: Bytes, written: set<nat>): History {
    History(h.images + [image], h.writes + [written])
  }

  /** A mirror is of the same snapshots when there is one more. */
  lemma Extended(h: History, size: nat, image: Bytes, written: set<nat>, base: Option<nat>, mirror: Bytes)
    requires ValidHistory(h, size) && |image| == size
    requires forall x | 0 <= x < size && x !in written :: image[x] == Newest(h)[x]
    ensures ValidHistory(Extend(h, image, written), size)
    ensures base.Some? && Holds(h, size, base.value, mirror) ==>
        Holds(Extend(h, image, written), size, base.value, mirror)
  {
    var more := Extend(h, image, written);
    assert forall i | 0 <= i < |h.images| :: more.images[i] == h.images[i];
    assert forall i | 0 <= i < |h.writes| :: more.writes[i] == h.writes[i];
    if base.Some? && Holds(h, size, base.value, mirror) {
      forall x | 0 <= x < size ensures Stems(more, size, base.value, x, mirror[x]) {
        assert Stems(h, size, base.value, x, mirror[x]);
        var i :| base.value <= i < |h.images| && mirror[x] == h.images[i][x];
        assert more.images[i][x] == mirror[x];
      }
    }
  }

  /** Both clusters' view of one mirrored volume. */
  class Pair {
    const size: nat
    var history: History
    var remote: Receiver
    var listed: set<nat>

    /** The newest snapshot of which no byte on the remote is older; None before a first full copy. */
    ghost var base: Option<nat>

    ghost predicate Valid()
      reads this, remote
    {
      && size < WORD
      && ValidHistory(history, size) && |remote.image| == size
      && (forall s | s in listed :: s < |history.images|)
      && (base.Some? ==> base.value < |history.images| && Holds(history, size, base.value, remote.image))
    }

    /** Every snapshot the remote lists arrived completely. */
    ghost predicate Healthy()
      reads this
    {
      forall s | s in listed :: base.Some? && s <= base.value
    }

    constructor (first: Bytes, remote: Receiver)
      requires |first| == |remote.image| < WORD
      ensures Valid() && Healthy() && history == History([first], []) && listed == {} && base == None
      ensures this.remote == remote && size == |first|
    {
      size, history, listed := |first|, History([first], []), {};
      this.remote := remote;
      base := None;
    }

    /** The volume is written to, and the next mirror update takes its snapshot. */
    method TakeSnapshot(image: Bytes, written: set<nat>)
      requires Valid() && |image| == size
      requires forall x | 0 <= x < size && x !in written :: image[x] == Newest(history)[x]
      modifies this`history
      ensures Valid()
      ensures history == Extend(old(history), image, written)
    {
      hide ValidHistory, Holds;
      Extended(history, size, image, written, base, remote.image);
      history := Extend(history, image, written);
    }

    /** Sends the newest snapshot. `local` are the snapshots the source still has, `parent` is whichever
        `next` picked out of those both sides list, or None when there is none; `extents` is what
        `diff_iterate` reports for it. The remote lists the snapshot as soon as it has its
        configuration, before any block arrives. */
    method CreateMirror(local: set<nat>, parent: Option<nat>, extents: seq<Extent>, link: nat -> Option<nat>,
                        pieces: seq<Bytes>)
      returns (ok: bool)
      requires Valid()
      requires |history.images| - 1 !in listed
      requires parent.Some? <==> local * listed != {}
      requires parent.Some? ==> parent.value in local * listed
      requires parent.Some? ==> Reports(history, parent.value, extents, size)
      requires forall i | 0 <= i < |pieces| :: pieces[i] != []
      requires |Concat(pieces)| <= size && Concat(pieces) == Newest(history)[..|Concat(pieces)|]
      modifies this`listed, this`base, remote
      ensures Valid()
      ensures listed == old(listed) + {|history.images| - 1}
      ensures parent.None? ==> ok == (|Concat(pieces)| == size)
      ensures parent.Some? && (forall k: nat :: link(k).None?) ==> ok
      ensures ok && (parent.None? || (old(base).Some? && parent.value <= old(base).value)) ==>
              remote.image == Newest(history) && base == Some(|history.images| - 1)
      ensures parent.Some? && ok ==> Overlaid(old(remote.image), Newest(history), extents, remote.image)
      ensures parent.Some? && link(0) == Some(0) ==> remote.image == old(remote.image)
      ensures !ok ==> base == old(base)
      ensures ok && old(Healthy()) ==> Healthy() && remote.image == Newest(history)
      ensures ok && base == Some(|history.images| - 1) ==> Healthy()
    {
      var newest := |history.images| - 1;
      listed := listed + {newest};
      ghost var before := remote.image;
      match parent {
        case Some(p) =>
          var sender := new Sender(Newest(history), remote);
          ok := sender.SendDiff(extents, link);
          if ok && base.Some? && p <= base.value {
            Converges(history, size, base.value, p, before, extents, remote.image);
            base := Some(newest);
          }
        case None =>
          var stored := remote.ReceiveFull(pieces);
          ok := |Concat(pieces)| == size;
          if ok {
            base := Some(newest);
          }
      }
      StillHolds(history, size, before, remote.image, if base == old(base) then base else None);
    }
  }

  /** How a mirror goes wrong: an update breaks off before its first block, and the next one takes the
      snapshot that never arrived as its parent. It succeeds, and the remote still has the oldest image. */
  method BrokenUpdate() returns (pair: Pair, ok: bool)
    ensures ok && pair.Valid() && pair.remote.image != Newest(pair.history)
  {
    var remote := new Receiver([0]);
    pair := new Pair([0], remote);
    var whole: seq<Bytes>, none: seq<Bytes> := [[0]], [];
    assert whole[..0] == none;
    ok := pair.CreateMirror({0}, None, [], _ => None, whole);
    pair.TakeSnapshot([1], {0});
    var changed := Extent(0, 1, true);
    assert InRange(changed, 0) && [changed][0] == changed;
    assert Covered([changed], 0);
    ok := pair.CreateMirror({0}, Some(0), [changed], _ => Some(0), []);
    pair.TakeSnapshot([1], {});
    ok := pair.CreateMirror({0, 1}, Some(1), [], _ => None, []);
  }

  /** A transfer, broken or not, only ever brings in bytes of the newest snapshot. */
  lemma StillHolds(h: History, size: nat, before: Bytes, after: Bytes, base: Option<nat>)
    requires ValidHistory(h, size) && |before| == size && Mixed(before, Newest(h), after)
    requires base.Some? ==> base.value < |h.images| && Holds(h, size, base.value, before)
    ensures base.Some? ==> Holds(h, size, base.value, after)
  {
    if base.Some? {
      forall x | 0 <= x < size ensures Stems(h, size, base.value, x, after[x]) {
        assert Stems(h, size, base.value, x, before[x]);
        if after[x] != before[x] {
          assert after[x] == h.images[|h.images| - 1][x];
        }
      }
    }
  }
}
