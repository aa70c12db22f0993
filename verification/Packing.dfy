/**
 The sending side of framing: frames are packed or cut into symbols, and every
 frame ends up in exactly one place. cargo remembers what each symbol was made of.
 */
module Packing {
  import opened LinearSystem
  import opened Frames

  /** What one symbol carries: whole frames, or one fragment of a frame. */
  datatype Cargo = Whole(frames: seq<Vector>) | Part(frame: Vector, limit: nat, index: nat)

  function PartCount(c: Cargo): nat
    requires c.Part? && c.limit > 0
  {
    FragmentCount(|c.frame|, c.limit)
  }

  ghost predicate Sendable(c: Cargo) {
    match c
    case Whole(frames) => Carried(frames) && |Pack(frames)| <= MAX_PAYLOAD
    case Part(frame, limit, index) =>
      0 < limit <= MAX_PAYLOAD && index < FragmentCount(|frame|, limit) <= MAX_FRAGMENTS
  }

  function Payload(c: Cargo): Vector
    requires Sendable(c)
  {
    match c
    case Whole(frames) => Pack(frames)
    case Part(frame, limit, index) =>
      FragmentPlace(|frame|, limit, index);
      Fragment(frame, limit, index)
  }

  function VectorOf(c: Cargo): Vector
    requires Sendable(c)
  {
    if c.Whole? then EncodeSymbol(Payload(c), 0, 1) else EncodeSymbol(Payload(c), c.index, PartCount(c))
  }

  lemma PayloadFits(c: Cargo)
    requires Sendable(c)
    ensures |Payload(c)| <= MAX_PAYLOAD
  {
    if c.Part? {
      FragmentPlace(|c.frame|, c.limit, c.index);
      assert (c.index + 1) * c.limit == c.index * c.limit + c.limit;
    }
  }

  /** The frames the symbols carry, in order, each fragmented one once. */
  function FramesIn(cargo: seq<Cargo>): seq<Vector> {
    if cargo == [] then [] else FramesIn(cargo[..|cargo| - 1]) + StartedBy(cargo[|cargo| - 1])
  }

  /** The frames of which the symbol is the first. */
  function StartedBy(c: Cargo): seq<Vector> {
    match c
    case Whole(frames) => frames
    case Part(frame, _, index) => if index == 0 then [frame] else []
  }

  /** All the fragments of a frame, in order. */
  function Parts(frame: Vector, limit: nat, n: nat): (p: seq<Cargo>)
    ensures |p| == n && forall i :: 0 <= i < n ==> p[i] == Part(frame, limit, i)
  {
    seq(n, i requires 0 <= i < n => Part(frame, limit, i))
  }

  lemma {:induction false} FramesInJoin(a: seq<Cargo>, b: seq<Cargo>)
    ensures FramesIn(a + b) == FramesIn(a) + FramesIn(b)
  {
    hide StartedBy;
    if b == [] {
      assert a + b == a;
    } else {
      var n := |b| - 1;
      assert (a + b)[..|a| + n] == a + b[..n];
      FramesInJoin(a, b[..n]);
    }
  }

  lemma {:induction false} FramesInParts(frame: Vector, limit: nat, n: nat)
    ensures FramesIn(Parts(frame, limit, n)) == if n == 0 then [] else [frame]
  {
    if n > 0 {
      assert Parts(frame, limit, n)[..n - 1] == Parts(frame, limit, n - 1);
      FramesInParts(frame, limit, n - 1);
    }
  }

  // ---------- groups of fragments ----------

  /** Position at belongs to the group that starts at first. */
  ghost predicate InGroup(cargo: seq<Cargo>, first: nat, j: nat) {
    && first + j < |cargo| && cargo[first].Part? && cargo[first].index == 0 && cargo[first].limit > 0
    && cargo[first + j] == cargo[first].(index := j)
  }

  /** Every fragment stands with all the others of its frame, in order. */
  ghost predicate Grouped(cargo: seq<Cargo>) {
    forall at :: 0 <= at < |cargo| && cargo[at].Part? ==> WithItsGroup(cargo, at)
  }

  ghost predicate WithItsGroup(cargo: seq<Cargo>, at: nat)
    requires at < |cargo| && cargo[at].Part?
  {
    && cargo[at].limit > 0 && cargo[at].index <= at && cargo[at].index < PartCount(cargo[at])
    && GroupFrom(cargo, at - cargo[at].index, PartCount(cargo[at]))
  }

  ghost predicate GroupFrom(cargo: seq<Cargo>, first: nat, count: nat) {
    forall j: nat :: j < count ==> InGroup(cargo, first, j)
  }

  lemma GroupedWhole(cargo: seq<Cargo>, frames: seq<Vector>)
    requires Grouped(cargo)
    ensures Grouped(cargo + [Whole(frames)])
  {
    hide FragmentCount;
    var all := cargo + [Whole(frames)];
    forall at | 0 <= at < |all| && all[at].Part?
      ensures WithItsGroup(all, at)
    {
      assert WithItsGroup(cargo, at);
      GroupExtends(cargo, [Whole(frames)], at);
    }
  }

  lemma GroupExtends(cargo: seq<Cargo>, more: seq<Cargo>, at: nat)
    requires at < |cargo| && cargo[at].Part? && WithItsGroup(cargo, at)
    ensures WithItsGroup(cargo + more, at)
  {
    hide FragmentCount;
    var first := at - cargo[at].index;
    forall j: nat | j < PartCount(cargo[at])
      ensures InGroup(cargo + more, first, j)
    {
      assert InGroup(cargo, first, j);
    }
  }

  lemma GroupedParts(cargo: seq<Cargo>, frame: Vector, limit: nat)
    requires Grouped(cargo) && limit > 0
    ensures Grouped(cargo + Parts(frame, limit, FragmentCount(|frame|, limit)))
  {
    hide FragmentCount;
    var n := FragmentCount(|frame|, limit);
    var parts := Parts(frame, limit, n);
    var all := cargo + parts;
    forall at | 0 <= at < |all| && all[at].Part?
      ensures WithItsGroup(all, at)
    {
      if at < |cargo| {
        assert WithItsGroup(cargo, at);
        GroupExtends(cargo, parts, at);
      } else {
        assert GroupFrom(all, |cargo|, n);
      }
    }
  }

  /** No fragment stands alone, so none can be taken for whole frames. */
  ghost predicate NoMisfit(cargo: seq<Cargo>) {
    forall i :: 0 <= i < |cargo| && cargo[i].Part? && cargo[i].limit > 0 ==> PartCount(cargo[i]) != 1
  }

  lemma NoMisfitJoin(a: seq<Cargo>, b: seq<Cargo>)
    requires NoMisfit(a) && NoMisfit(b)
    ensures NoMisfit(a + b)
  {
    hide FragmentCount;
  }

  // ---------- packing as a value ----------

  /** Whether one frame can be carried at this limit at all. */
  predicate Fits(length: nat, limit: nat)
    requires limit > 0
  {
    FRAME_HEADER + length <= limit || FragmentCount(length, limit) <= MAX_FRAGMENTS
  }

  /** The symbols made so far, and the frames still waiting to share one. */
  datatype Packed = Packed(cargo: seq<Cargo>, waiting: seq<Vector>)

  function Flushed(p: Packed): Packed {
    if p.waiting == [] then p else Packed(p.cargo + [Whole(p.waiting)], [])
  }

  /** One more frame: whole where it fits, in fragments where it does not, not at all where there would be too many. */
  function Append(p: Packed, frame: Vector, limit: nat): Packed
    requires limit > 0
  {
    if FRAME_HEADER + |frame| > limit then
      var q := Flushed(p);
      var count := FragmentCount(|frame|, limit);
      if count > MAX_FRAGMENTS then q else q.(cargo := q.cargo + Parts(frame, limit, count))
    else
      var q := if |Pack(p.waiting)| + FRAME_HEADER + |frame| > limit then Flushed(p) else p;
      q.(waiting := q.waiting + [frame])
  }

  // ---------- the packer as it runs ----------

  /** The vectors are the encodings of these symbols. */
  ghost predicate Encoded(vectors: seq<Vector>, cargo: seq<Cargo>) {
    |vectors| == |cargo| && forall i :: 0 <= i < |cargo| ==> Sendable(cargo[i]) && vectors[i] == VectorOf(cargo[i])
  }

  lemma EncodedSnoc(vectors: seq<Vector>, cargo: seq<Cargo>, c: Cargo)
    requires Encoded(vectors, cargo) && Sendable(c)
    ensures Encoded(vectors + [VectorOf(c)], cargo + [c])
  {
    hide Sendable, VectorOf;
  }

  class Packer {
    var packed: Vector
    /** The vectors handed to the encoder so far. */
    var emitted: seq<Vector>
    ghost var waiting: seq<Vector>
    ghost var cargo: seq<Cargo>

    ghost predicate Valid()
      reads this
    {
      && packed == Pack(waiting) && Carried(waiting) && |packed| <= MAX_PAYLOAD
      && Grouped(cargo) && Encoded(emitted, cargo)
    }

    constructor ()
      ensures Valid() && cargo == [] && waiting == []
    {
      packed, emitted, waiting, cargo := [], [], [], [];
    }

    /** Codes one symbol. */
    method Emit(payload: Vector, index: nat, count: nat)
      modifies this`emitted
      ensures emitted == old(emitted) + [EncodeSymbol(payload, index, count)]
    {
      emitted := emitted + [EncodeSymbol(payload, index, count)];
    }

    /** Sends the whole frames accumulated so far as one symbol. */
    method FlushPacked()
      requires Valid()
      modifies this
      ensures Valid() && waiting == [] && packed == []
      ensures Packed(cargo, waiting) == Flushed(old(Packed(cargo, waiting)))
      ensures FramesIn(cargo) == FramesIn(old(cargo)) + old(waiting)
      ensures NoMisfit(old(cargo)) ==> NoMisfit(cargo)
    {
      hide Grouped, Encoded, NoMisfit, FramesIn, Carried, Pack;
      if |packed| == 0 {
        NothingPacked(waiting);
        return;
      }
      if NoMisfit(cargo) {
        WholeNoMisfit(waiting);
        NoMisfitJoin(cargo, [Whole(waiting)]);
      }
      PackNothing();
      EncodedSnoc(emitted, cargo, Whole(waiting));
      Emit(packed, 0, 1);
      packed := [];
      GroupedWhole(cargo, waiting);
      FramesInJoin(cargo, [Whole(waiting)]);
      FramesInWhole(waiting);
      cargo, waiting := cargo + [Whole(waiting)], [];
    }

    /** Spreads one frame over symbols of its own. */
    method SendFragments(frame: Vector, limit: nat) returns (ok: bool)
      requires Valid() && 0 < limit <= MAX_PAYLOAD
      modifies this`emitted, this`cargo
      ensures Valid() && ok == (FragmentCount(|frame|, limit) <= MAX_FRAGMENTS)
      ensures cargo == if ok then old(cargo) + Parts(frame, limit, FragmentCount(|frame|, limit)) else old(cargo)
    {
      hide Grouped, Encoded, FragmentCount;
      var count := FragmentCount(|frame|, limit);
      if count > MAX_FRAGMENTS {
        return false;
      }
      ghost var parts, before := Parts(frame, limit, count), cargo;
      var i: nat := 0;
      assert before + parts[..0] == before;
      while i < count
        invariant i <= count && Encoded(emitted, before + parts[..i])
        modifies this`emitted
      {
        FragmentPlace(|frame|, limit, i);
        EncodedSnoc(emitted, before + parts[..i], parts[i]);
        assert before + parts[..i] + [parts[i]] == before + parts[..i + 1];
        Emit(Fragment(frame, limit, i), i, count);
        i := i + 1;
      }
      assert parts[..count] == parts;
      GroupedParts(cargo, frame, limit);
      cargo := cargo + parts;
      return true;
    }

    /** Puts one frame on the wire, whole where it fits and in fragments where it does not. */
    method AppendFrame(frame: Vector, limit: nat) returns (ok: bool)
      requires Valid() && FRAME_HEADER < limit <= MAX_PAYLOAD
      modifies this
      ensures Valid() && ok == Fits(|frame|, limit)
      ensures Packed(cargo, waiting) == Append(old(Packed(cargo, waiting)), frame, limit)
      ensures FramesIn(cargo) + waiting == FramesIn(old(cargo)) + old(waiting) + if ok then [frame] else []
      ensures NoMisfit(old(cargo)) && !Misfit(|frame|, limit) ==> NoMisfit(cargo)
      ensures Misfit(|frame|, limit) <==> ok && |cargo| > |old(cargo)| && cargo[|cargo| - 1] == Part(frame, limit, 0)
                                          && PartCount(cargo[|cargo| - 1]) == 1
    {
      hide Grouped, Encoded, FragmentCount, Pack, NoMisfit, FramesIn, Carried;
      if FRAME_HEADER + |frame| > limit {
        FlushPacked();
        ghost var before := cargo;
        ok := SendFragments(frame, limit);
        FramesInParts(frame, limit, FragmentCount(|frame|, limit));
        FramesInJoin(before, Parts(frame, limit, FragmentCount(|frame|, limit)));
        FragmentedCount(|frame|, limit);
        if ok && NoMisfit(before) && !Misfit(|frame|, limit) {
          PartsNoMisfit(frame, limit);
          NoMisfitJoin(before, Parts(frame, limit, FragmentCount(|frame|, limit)));
        }
        return;
      }
      if |packed| + FRAME_HEADER + |frame| > limit {
        FlushPacked();
      }
      PackSnoc(waiting, frame);
      CarriedSnoc(waiting, frame);
      packed := packed + Put32(|frame|) + frame;
      waiting := waiting + [frame];
      assert packed == Pack(waiting);
      ok := true;
      assert |cargo| > |old(cargo)| ==> cargo[|cargo| - 1].Whole?;
    }
  }

  lemma CarriedSnoc(frames: seq<Vector>, frame: Vector)
    requires Carried(frames) && |frame| < 0x1_0000_0000
    ensures Carried(frames + [frame])
  {
  }

  lemma WholeNoMisfit(frames: seq<Vector>)
    ensures NoMisfit([Whole(frames)])
  {
  }

  lemma PackNothing()
    ensures Pack([]) == [] && Carried([])
  {
  }

  lemma PartsNoMisfit(frame: Vector, limit: nat)
    requires limit > 0 && FragmentCount(|frame|, limit) != 1
    ensures NoMisfit(Parts(frame, limit, FragmentCount(|frame|, limit)))
  {
    hide FragmentCount;
  }

  lemma NothingPacked(frames: seq<Vector>)
    requires Pack(frames) == []
    ensures frames == []
  {
  }

  lemma FramesInWhole(frames: seq<Vector>)
    ensures FramesIn([Whole(frames)]) == frames
  {
    assert [Whole(frames)][..0] == [];
    assert FramesIn([]) == [];
  }

  lemma PackSnoc(frames: seq<Vector>, frame: Vector)
    ensures Pack(frames + [frame]) == Pack(frames) + Put32(|frame|) + frame
  {
    assert (frames + [frame])[..|frames|] == frames;
  }

  lemma FragmentedCount(length: nat, limit: nat)
    requires FRAME_HEADER < limit && FRAME_HEADER + length > limit
    ensures FragmentCount(length, limit) >= 1
    ensures FragmentCount(length, limit) == 1 <==> Misfit(length, limit)
  {
    if length <= limit {
      OneFragment(length, limit);
    } else {
      ManyFragments(length, limit);
    }
  }
}
