/** One frame sent by itself, from packing to hand-up: exactly when it comes back. */
module FrameRoundTrip {
  import opened LinearSystem
  import opened SymbolIds
  import opened Frames
  import opened Packing
  import opened Completion
  import A = Assembly

  /** The symbols a frame is sent in when nothing shares them. */
  function Alone(frame: Vector, limit: nat): seq<Cargo>
    requires limit > 0
  {
    Flushed(Append(Packed([], []), frame, limit)).cargo
  }

  /** The packer emits exactly their encodings. */
  method SendAlone(frame: Vector, limit: nat) returns (vectors: seq<Vector>)
    requires FRAME_HEADER < limit <= MAX_PAYLOAD
    ensures Encoded(vectors, Alone(frame, limit))
  {
    hide Append, Flushed, Encoded;
    var packer := new Packer();
    var ok := packer.AppendFrame(frame, limit);
    packer.FlushPacked();
    vectors := packer.emitted;
  }

  /** The first n symbols read in order by a fresh assembler, and what it hands up for them. */
  function Read(vectors: seq<Vector>, n: nat): (A.Assembler, seq<Vector>)
    requires n <= |vectors|
  {
    if n == 0 then (A.Fresh(), []) else
      var before := Read(vectors, n - 1);
      var r := A.Arrived(before.0, Wrap(n - 1), vectors[n - 1]);
      (r.state, before.1 + r.frames)
  }

  ghost function FirstIds(n: nat): (ids: set<nat>)
    ensures forall i :: i in ids <==> 0 <= i < n
  {
    if n == 0 then {} else FirstIds(n - 1) + {n - 1}
  }

  /** Read in order, the symbols hand up exactly the frames they complete. */
  lemma {:induction false} ReadHeld(cargo: seq<Cargo>, vectors: seq<Vector>, n: nat)
    requires A.Sender(cargo) && Encoded(vectors, cargo) && n <= |vectors|
    ensures var r := Read(vectors, n);
            && A.Held(cargo, r.0, FirstIds(n), n - WIDTH)
            && multiset(r.1) == multiset(Complete(cargo, FirstIds(n), |cargo|))
  {
    hide A.Sender, A.Held, Complete, A.Arrived, A.Delivered, VectorOf, Sendable;
    if n == 0 {
      A.FreshHeld(cargo, -(WIDTH as int));
      assert FirstIds(0) == {};
      NothingComplete(cargo, |cargo|);
    } else {
      ReadHeld(cargo, vectors, n - 1);
      var r, id: nat, got := Read(vectors, n - 1), n - 1, FirstIds(n - 1);
      A.HeldLater(cargo, r.0, got, n - 1 - WIDTH, n - WIDTH);
      A.Short(cargo);
      WrapSmall(id);
      assert Padded(vectors[id], VectorOf(cargo[id]));
      A.ArrivedHeld(cargo, r.0, got, n - WIDTH, id, vectors[id]);
      CompleteGrows(cargo, got, id);
      assert got + {id} == FirstIds(n);
    }
  }

  /** Whatever the frame and the limit, the symbols are well formed. */
  lemma AloneSendable(frame: Vector, limit: nat)
    requires FRAME_HEADER < limit <= MAX_PAYLOAD
    ensures forall i :: 0 <= i < |Alone(frame, limit)| ==> Sendable(Alone(frame, limit)[i])
    ensures FRAME_HEADER + |frame| <= limit ==> Alone(frame, limit) == [Whole([frame])]
    ensures FRAME_HEADER + |frame| > limit && Fits(|frame|, limit) ==>
              Alone(frame, limit) == Parts(frame, limit, FragmentCount(|frame|, limit))
    ensures !Fits(|frame|, limit) ==> Alone(frame, limit) == []
  {
    hide FragmentCount;
    PackOne(frame);
    assert [] + [Whole([frame])] == [Whole([frame])];
    assert [] + Parts(frame, limit, FragmentCount(|frame|, limit))
        == Parts(frame, limit, FragmentCount(|frame|, limit));
  }

  lemma PackOne(frame: Vector)
    ensures Pack([]) == [] && |Pack([frame])| == FRAME_HEADER + |frame|
  {
    assert [frame][..0] == [];
  }

  lemma AloneIsSender(frame: Vector, limit: nat)
    requires FRAME_HEADER < limit <= MAX_PAYLOAD && !Misfit(|frame|, limit)
    ensures A.Sender(Alone(frame, limit))
    ensures FramesIn(Alone(frame, limit)) == if Fits(|frame|, limit) then [frame] else []
  {
    hide FragmentCount, Alone, Sendable;
    AloneSendable(frame, limit);
    var count := FragmentCount(|frame|, limit);
    NoGroups();
    if FRAME_HEADER + |frame| <= limit {
      GroupedWhole([], [frame]);
      assert [] + [Whole([frame])] == [Whole([frame])];
      WholeNoMisfit([frame]);
      FramesInWhole([frame]);
    } else if Fits(|frame|, limit) {
      GroupedParts([], frame, limit);
      assert [] + Parts(frame, limit, count) == Parts(frame, limit, count);
      FragmentedCount(|frame|, limit);
      PartsNoMisfit(frame, limit);
      FramesInParts(frame, limit, count);
    }
  }

  lemma NoGroups()
    ensures Grouped([]) && NoMisfit([]) && FramesIn([]) == []
  {
  }

  lemma OnlyOne(s: seq<Vector>, x: Vector)
    requires multiset(s) == multiset([x])
    ensures s == [x]
  {
    assert |s| == |multiset(s)| == |multiset([x])| == 1;
    assert s[0] in multiset(s);
  }

  /** A misfit's one symbol is read as packed frames, all of them shorter than the frame. */
  lemma MisfitRead(frame: Vector, limit: nat, v: Vector)
    requires FRAME_HEADER < limit <= MAX_PAYLOAD && Misfit(|frame|, limit)
    ensures Alone(frame, limit) == [Part(frame, limit, 0)] && Sendable(Part(frame, limit, 0))
    ensures v == VectorOf(Part(frame, limit, 0)) ==> Read([v], 1).1 == ParseFrames(frame) != [frame]
  {
    hide FragmentCount, ParseFrames, ParseSymbol, Alone;
    OneFragment(|frame|, limit);
    AloneSendable(frame, limit);
    var part := Part(frame, limit, 0);
    assert Parts(frame, limit, 1) == [part];
    if v == VectorOf(part) {
      assert Payload(part) == frame;
      A.ParsedCargo(part, v);
      WrapSmall(0);
      assert Read([v], 0).1 == [];
      assert [] + ParseFrames(frame) == ParseFrames(frame);
      if |ParseFrames(frame)| == 1 {
        ParsedAreShorter(frame, 0);
      }
    }
  }

  /**
   A frame sent by itself, encoded, read and reassembled, comes back as itself exactly
   when it is not a misfit and its fragments can be counted. A misfit is handed up as
   something else; a frame with too many fragments is never sent.
   */
  lemma FrameRoundTripExact(frame: Vector, limit: nat, vectors: seq<Vector>)
    requires FRAME_HEADER < limit <= MAX_PAYLOAD && Encoded(vectors, Alone(frame, limit))
    ensures Read(vectors, |vectors|).1 == [frame] <==> !Misfit(|frame|, limit) && Fits(|frame|, limit)
  {
    hide FragmentCount, Alone, Read, A.Sender, A.Held, Complete, VectorOf, Sendable;
    AloneSendable(frame, limit);
    if Misfit(|frame|, limit) {
      OneFragment(|frame|, limit);
      MisfitRead(frame, limit, vectors[0]);
      assert vectors == [vectors[0]];
    } else if Fits(|frame|, limit) {
      AllRead(frame, limit, vectors);
    } else {
      NothingRead(vectors);
    }
  }

  lemma AllRead(frame: Vector, limit: nat, vectors: seq<Vector>)
    requires FRAME_HEADER < limit <= MAX_PAYLOAD && Encoded(vectors, Alone(frame, limit))
    requires !Misfit(|frame|, limit) && Fits(|frame|, limit)
    ensures Read(vectors, |vectors|).1 == [frame]
  {
    hide FragmentCount, Alone, Read, A.Sender, A.Held, Complete, VectorOf, Sendable, FramesIn, Misfit, Fits;
    var cargo := Alone(frame, limit);
    AloneIsSender(frame, limit);
    ReadHeld(cargo, vectors, |vectors|);
    EverythingComplete(cargo, FirstIds(|cargo|), |cargo|);
    assert cargo[..|cargo|] == cargo;
    OnlyOne(Read(vectors, |vectors|).1, frame);
  }

  lemma NothingRead(vectors: seq<Vector>)
    requires vectors == []
    ensures Read(vectors, 0).1 == []
  {
  }

  /** A misfit, concretely: with room for eight bytes, five zeros are read as one empty frame. */
  lemma MisfitExample(vectors: seq<Vector>)
    requires Encoded(vectors, Alone([0, 0, 0, 0, 0], 8))
    ensures Misfit(5, 8) && Read(vectors, |vectors|).1 == [[]]
  {
    hide FragmentCount, Alone, Read, VectorOf, Sendable;
    var frame: Vector := [0, 0, 0, 0, 0];
    OneFragment(5, 8);
    AloneSendable(frame, 8);
    assert |vectors| == 1;
    MisfitRead(frame, 8, vectors[0]);
    assert vectors == [vectors[0]];
    assert Get32(frame) == 0;
    assert frame[4..][0..] == [0];
    assert ParseFrames(frame) == [frame[4..][..0]] + ParseFrames([0]);
  }

  /** With symbols of at most sixteen bytes a frame of one mebibyte, which the path accepts, is never sent. */
  lemma NeverSent(frame: Vector, limit: nat, vectors: seq<Vector>)
    requires FRAME_HEADER < limit <= 16 && |frame| == 0x10_0000 && Encoded(vectors, Alone(frame, limit))
    ensures !Misfit(|frame|, limit) && !Fits(|frame|, limit) && vectors == [] && Read(vectors, 0).1 == []
  {
    hide FragmentCount;
    CountBounds(|frame|, limit);
    var c := FragmentCount(|frame|, limit);
    if c <= MAX_FRAGMENTS {
      Monotone(c, MAX_FRAGMENTS, limit);
    }
    AloneSendable(frame, limit);
  }
}
