/**
 The assembler as it runs: a map of groups, updated in place. Each method is the Assembly
 function of the same step.
 */
module FrameAssembler {
  import opened LinearSystem
  import opened SymbolIds
  import opened Frames
  import A = Assembly

  class Assembler {
    var groups: map<Id, A.Group>
    var high: Id
    var seen: bool
    /** Symbols the decoder has given up. */
    var lostN: nat

    ghost function Model(): A.Assembler
      reads this
    {
      A.Assembler(groups, high, seen)
    }

    constructor ()
      ensures Model() == A.Fresh() && lostN == 0
    {
      groups, high, seen, lostN := map[], 0, false, 0;
    }

    method PruneGroups()
      modifies this`groups
      ensures Model() == A.Prune(old(Model()))
    {
      hide A.TooOld;
      groups := WithoutOld(groups, high);
    }

    method NoteSymbol(esi: Id)
      modifies this`groups, this`high, this`seen
      ensures Model() == A.Note(old(Model()), esi)
    {
      hide A.Prune;
      if !seen {
        seen, high := true, esi;
        return;
      }
      if A.Signed(esi - high) > 0 {
        high := esi;
        PruneGroups();
      }
    }

    /** Takes one symbol and returns the frames it completes; false if it is no symbol. */
    method SymbolArrived(esi: Id, v: Vector) returns (frames: seq<Vector>, valid: bool)
      modifies this`groups, this`high, this`seen
      ensures A.Arrived(old(Model()), esi, v) == A.Arrival(Model(), frames, valid)
    {
      hide A.Note, ParseSymbol, ParseFrames, Concat;
      NoteSymbol(esi);
      frames := [];
      var parsed := ParseSymbol(v);
      if parsed.Malformed? {
        return frames, false;
      }
      if parsed.count == 1 {
        frames := ParseFramesInto(parsed.payload, []);
        return frames, true;
      }
      var first := Wrap(esi - parsed.index);
      if first !in groups {
        groups := groups[first := A.Group(A.NoParts(parsed.count), 0)];
      }
      var group := groups[first];
      if parsed.index >= |group.parts| || group.parts[parsed.index] != [] {
        return frames, true;
      }
      group := A.Group(group.parts[parsed.index := parsed.payload], group.held + 1);
      if group.held < |group.parts| {
        groups := groups[first := group];
        return frames, true;
      }
      groups := groups - {first};
      var frame := Joined(group.parts);
      return [frame], true;
    }

    method SymbolLost(esi: Id)
      modifies this
      ensures Model() == A.Lost(old(Model()), esi) && lostN == old(lostN) + 1
    {
      hide A.Note, A.Spans;
      NoteSymbol(esi);
      lostN := lostN + 1;
      groups := WithoutSpanning(groups, esi);
    }
  }

  /** Drops the groups too far behind the newest symbol. */
  method WithoutOld(groups: map<Id, A.Group>, high: Id) returns (r: map<Id, A.Group>)
    ensures r == map k | k in groups && !A.TooOld(high, k, groups[k]) :: groups[k]
  {
    hide A.TooOld;
    r := groups;
    var left := groups;
    while left != map[]
      invariant forall k :: k in left ==> k in groups && left[k] == groups[k]
      invariant r == map k | k in groups && (k in left || !A.TooOld(high, k, groups[k])) :: groups[k]
      decreases |left|
    {
      assert left.Keys != {};
      var first :| first in left.Keys;
      if A.TooOld(high, first, left[first]) {
        r := r - {first};
      }
      assert (left - {first}).Keys == left.Keys - {first};
      left := left - {first};
    }
  }

  /** Drops the groups the symbol belongs to. */
  method WithoutSpanning(groups: map<Id, A.Group>, esi: Id) returns (r: map<Id, A.Group>)
    ensures r == map k | k in groups && !A.Spans(k, groups[k], esi) :: groups[k]
  {
    hide A.Spans;
    r := groups;
    var left := groups;
    while left != map[]
      invariant forall k :: k in left ==> k in groups && left[k] == groups[k]
      invariant r == map k | k in groups && (k in left || !A.Spans(k, groups[k], esi)) :: groups[k]
      decreases |left|
    {
      assert left.Keys != {};
      var first :| first in left.Keys;
      if A.Spans(first, left[first], esi) {
        r := r - {first};
      }
      assert (left - {first}).Keys == left.Keys - {first};
      left := left - {first};
    }
  }

  method Joined(parts: seq<Vector>) returns (frame: Vector)
    ensures frame == Concat(parts)
  {
    frame := [];
    var i := 0;
    while i < |parts|
      invariant i <= |parts| && frame == Concat(parts[..i])
    {
      assert parts[..i + 1][..i] == parts[..i];
      frame := frame + parts[i];
      i := i + 1;
    }
    assert parts[..|parts|] == parts;
  }
}
