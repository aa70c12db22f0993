/**
 The receiving side of framing. A symbol of whole frames delivers them as it
 arrives; a fragment waits for the others of its frame. Groups that can no longer
 be completed are dropped, on word from the decoder or for being too far behind.
 */
module Assembly {
  import opened LinearSystem
  import opened SymbolIds
  import opened Frames
  import opened Packing

  /** How far behind the newest symbol a partly arrived frame is kept. */
  const SLACK: nat := 512

  /** The fragments of one frame that have arrived; an empty part has not. */
  datatype Group = Group(parts: seq<Vector>, held: nat)

  datatype Assembler = Assembler(groups: map<Id, Group>, high: Id, seen: bool)

  datatype Arrival = Arrival(state: Assembler, frames: seq<Vector>, valid: bool)

  /** The signed value of a wrapping 32-bit difference. */
  function Signed(x: int): int {
    if Wrap(x) < HALF then Wrap(x) else Wrap(x) - MODULUS
  }

  function Fresh(): Assembler {
    Assembler(map[], 0, false)
  }

  predicate TooOld(high: Id, first: Id, g: Group) {
    Signed(high - (first + |g.parts|)) > SLACK
  }

  function Prune(a: Assembler): Assembler {
    a.(groups := map k | k in a.groups && !TooOld(a.high, k, a.groups[k]) :: a.groups[k])
  }

  function Note(a: Assembler, esi: Id): Assembler {
    if !a.seen then a.(seen := true, high := esi)
    else if Signed(esi - a.high) > 0 then Prune(a.(high := esi))
    else a
  }

  function NoParts(count: nat): (p: seq<Vector>)
    ensures |p| == count && forall i :: 0 <= i < count ==> p[i] == []
  {
    seq(count, _ => [])
  }

  /** A fragment joins its group; the last one completes the frame. */
  function TakePart(a: Assembler, first: Id, payload: Vector, index: nat, count: nat): (Assembler, seq<Vector>) {
    var g := if first in a.groups then a.groups[first] else Group(NoParts(count), 0);
    if index >= |g.parts| || g.parts[index] != [] then (a.(groups := a.groups[first := g]), []) else
      var h := Group(g.parts[index := payload], g.held + 1);
      if h.held < |h.parts| then (a.(groups := a.groups[first := h]), [])
      else (a.(groups := a.groups - {first}), [Concat(h.parts)])
  }

  function Arrived(a: Assembler, esi: Id, v: Vector): Arrival {
    var b := Note(a, esi);
    match ParseSymbol(v)
    case Malformed => Arrival(b, [], false)
    case Parsed(payload, index, count) =>
      if count == 1 then Arrival(b, ParseFrames(payload), true) else
        var r := TakePart(b, Wrap(esi - index), payload, index, count);
        Arrival(r.0, r.1, true)
  }

  predicate Spans(first: Id, g: Group, esi: Id) {
    0 <= Signed(esi - first) < |g.parts|
  }

  function Lost(a: Assembler, esi: Id): Assembler {
    var b := Note(a, esi);
    b.(groups := map k | k in b.groups && !Spans(k, b.groups[k], esi) :: b.groups[k])
  }

  // ---------- identifiers that do not wrap ----------

  /** Streams are shorter than this, so identifiers and groups stay within 2^31 of each other. */
  const MAX_SYMBOLS: nat := HALF - WIDTH

  lemma SignedSmall(x: int)
    requires -(HALF as int) <= x < HALF
    ensures Signed(x) == x
  {
    if x < 0 {
      WrapShift(x, 1);
      WrapSmall(x + MODULUS);
    } else {
      WrapSmall(x);
    }
  }

  // ---------- the invariant ----------

  /** A group of fragments starts here. */
  ghost predicate Heads(cargo: seq<Cargo>, first: nat) {
    && first < |cargo| && cargo[first].Part? && cargo[first].index == 0 && cargo[first].limit > 0
  }

  ghost function Size(cargo: seq<Cargo>, first: nat): nat
    requires Heads(cargo, first)
  {
    PartCount(cargo[first])
  }

  /** Some fragment is gone for good: behind the window and never got. */
  ghost predicate Dead(cargo: seq<Cargo>, got: set<nat>, base: int, first: nat)
    requires Heads(cargo, first)
  {
    exists j: nat :: j < Size(cargo, first) && Missing(got, base, first, j)
  }

  /** The j'th fragment of the group is behind the window and was never got. */
  ghost predicate Missing(got: set<nat>, base: int, first: nat, j: nat) {
    first + j < base && first + j !in got
  }

  ghost predicate AllGot(cargo: seq<Cargo>, got: set<nat>, first: nat)
    requires Heads(cargo, first)
  {
    forall j: nat :: j < Size(cargo, first) ==> Has(got, first, j)
  }

  ghost predicate NoneGot(cargo: seq<Cargo>, got: set<nat>, first: nat)
    requires Heads(cargo, first)
  {
    forall j: nat :: j < Size(cargo, first) ==> !Has(got, first, j)
  }

  ghost predicate Has(got: set<nat>, first: nat, j: nat) {
    first + j in got
  }

  function Filled(parts: seq<Vector>): nat {
    if parts == [] then 0 else Filled(parts[..|parts| - 1]) + if parts[|parts| - 1] == [] then 0 else 1
  }

  /** Every part held is the right one, and unless the group is dead, every part got is held. */
  ghost predicate GroupHolds(cargo: seq<Cargo>, got: set<nat>, base: int, first: nat, g: Group)
    requires Heads(cargo, first)
  {
    && |g.parts| == Size(cargo, first) && g.held == Filled(g.parts) < |g.parts|
    && (forall j: nat :: j < |g.parts| && g.parts[j] != [] ==>
          Has(got, first, j) && IsFragment(cargo[first].frame, cargo[first].limit, j, g.parts[j]))
    && (Dead(cargo, got, base, first) || forall j: nat :: j < |g.parts| && Has(got, first, j) ==> g.parts[j] != [])
  }

  /** A group not held has nothing to hold, is complete, or is dead. */
  ghost predicate Settled(cargo: seq<Cargo>, got: set<nat>, base: int, first: nat)
    requires Heads(cargo, first)
  {
    Dead(cargo, got, base, first) || NoneGot(cargo, got, first) || AllGot(cargo, got, first)
  }

  ghost predicate Sender(cargo: seq<Cargo>) {
    && |cargo| <= MAX_SYMBOLS && Grouped(cargo) && NoMisfit(cargo)
    && forall i :: 0 <= i < |cargo| ==> Sendable(cargo[i])
  }

  ghost predicate Held(cargo: seq<Cargo>, a: Assembler, got: set<nat>, base: int) {
    && (a.groups != map[] ==> a.seen)
    && (a.seen ==> a.high < base + WIDTH && a.high < |cargo|)
    && (forall first :: first in a.groups ==>
          Heads(cargo, first) && GroupHolds(cargo, got, base, first, a.groups[first]))
    && (forall first: nat :: Heads(cargo, first) && first !in a.groups ==> Settled(cargo, got, base, first))
  }

  /** Before anything arrives there is nothing to hold. */
  lemma FreshHeld(cargo: seq<Cargo>, base: int)
    ensures Held(cargo, Fresh(), {}, base)
  {
    forall first: nat | Heads(cargo, first)
      ensures Settled(cargo, {}, base, first)
    {
      assert NoneGot(cargo, {}, first);
    }
  }

  // ---------- the window moves on ----------

  lemma DeadStays(cargo: seq<Cargo>, got: set<nat>, base: int, first: nat, later: int)
    requires Heads(cargo, first) && base <= later && Dead(cargo, got, base, first)
    ensures Dead(cargo, got, later, first)
  {
    var j: nat :| j < Size(cargo, first) && Missing(got, base, first, j);
    assert Missing(got, later, first, j);
  }

  lemma HeldLater(cargo: seq<Cargo>, a: Assembler, got: set<nat>, base: int, later: int)
    requires Held(cargo, a, got, base) && base <= later
    ensures Held(cargo, a, got, later)
  {
    hide Dead, Heads, Filled, IsFragment, Has, AllGot, NoneGot, Size;
    forall first | first in a.groups
      ensures GroupHolds(cargo, got, later, first, a.groups[first])
    {
      if Dead(cargo, got, base, first) {
        DeadStays(cargo, got, base, first, later);
      }
    }
    forall first: nat | Heads(cargo, first) && first !in a.groups
      ensures Settled(cargo, got, later, first)
    {
      if Dead(cargo, got, base, first) {
        DeadStays(cargo, got, base, first, later);
      }
    }
  }

  // ---------- pruning ----------

  lemma {:induction false} FilledBound(parts: seq<Vector>)
    ensures Filled(parts) <= |parts|
    ensures Filled(parts) == |parts| <==> forall j :: 0 <= j < |parts| ==> parts[j] != []
  {
    if parts != [] {
      FilledBound(parts[..|parts| - 1]);
    }
  }

  /** A held group that lies wholly behind the window is dead. */
  lemma BehindIsDead(cargo: seq<Cargo>, got: set<nat>, base: int, first: nat, g: Group)
    requires Heads(cargo, first) && GroupHolds(cargo, got, base, first, g) && first + Size(cargo, first) <= base
    ensures Dead(cargo, got, base, first)
  {
    FilledBound(g.parts);
    var j: nat :| j < |g.parts| && g.parts[j] == [];
    assert Has(got, first, j) || Missing(got, base, first, j);
  }

  lemma SizeBound(cargo: seq<Cargo>, first: nat)
    requires Sender(cargo) && Heads(cargo, first)
    ensures 2 <= Size(cargo, first) <= MAX_FRAGMENTS && first + Size(cargo, first) <= |cargo|
  {
    hide FragmentCount;
    assert WithItsGroup(cargo, first);
    assert Sendable(cargo[first]);
    assert InGroup(cargo, first, Size(cargo, first) - 1);
  }

  /** Pruning drops only groups all of whose fragments have left the decoder's window. */
  lemma PruneOnlyBehind(cargo: seq<Cargo>, a: Assembler, got: set<nat>, base: int, first: Id)
    requires Sender(cargo) && Held(cargo, a, got, base) && first in a.groups && first !in Prune(a).groups
    ensures Heads(cargo, first) && first + Size(cargo, first) < base
  {
    hide Filled, IsFragment, Settled, Dead, Has, Grouped;
    SizeBound(cargo, first);
    SignedSmall(a.high - (first + Size(cargo, first)));
  }

  /** Dropping dead groups keeps the invariant. */
  lemma DropDead(cargo: seq<Cargo>, a: Assembler, b: Assembler, got: set<nat>, base: int)
    requires Held(cargo, a, got, base) && b == a.(groups := b.groups)
    requires forall k :: k in b.groups ==> k in a.groups && b.groups[k] == a.groups[k]
    requires forall k :: k in a.groups && k !in b.groups ==> Heads(cargo, k) && Dead(cargo, got, base, k)
    ensures Held(cargo, b, got, base)
  {
    hide GroupHolds, Dead, Heads, NoneGot, AllGot;
    if b.groups != map[] {
      var k :| k in b.groups;
      assert k in a.groups;
    }
  }

  lemma PruneHeld(cargo: seq<Cargo>, a: Assembler, got: set<nat>, base: int)
    requires Sender(cargo) && Held(cargo, a, got, base)
    ensures Held(cargo, Prune(a), got, base)
  {
    hide GroupHolds, Dead, Heads, Settled, TooOld, Sender;
    forall k | k in a.groups && k !in Prune(a).groups
      ensures Heads(cargo, k) && Dead(cargo, got, base, k)
    {
      PruneOnlyBehind(cargo, a, got, base, k);
      BehindIsDead(cargo, got, base, k, a.groups[k]);
    }
    DropDead(cargo, a, Prune(a), got, base);
  }

  lemma NoteHeld(cargo: seq<Cargo>, a: Assembler, got: set<nat>, base: int, id: nat)
    requires Sender(cargo) && Held(cargo, a, got, base) && id < |cargo| && id < base + WIDTH
    ensures Held(cargo, Note(a, id), got, base) && Note(a, id).seen
  {
    hide GroupHolds, Settled, Prune;
    if a.seen {
      SignedSmall(id - a.high);
      if id > a.high {
        PruneHeld(cargo, a.(high := id), got, base);
        PruneKeeps(a.(high := id));
      }
    }
  }

  lemma PruneKeeps(a: Assembler)
    ensures Prune(a).seen == a.seen && Prune(a).high == a.high
  {
  }

  // ---------- a symbol is lost ----------

  /** The decoder says a symbol is gone: the group it belonged to goes too, and no other. */
  lemma LostHeld(cargo: seq<Cargo>, a: Assembler, got: set<nat>, base: int, id: nat)
    requires Sender(cargo) && Held(cargo, a, got, base) && id < |cargo| && id < base && id !in got
    ensures Held(cargo, Lost(a, id), got, base)
  {
    hide GroupHolds, Settled, Note, Sender, Has;
    Short(cargo);
    NoteHeld(cargo, a, got, base, id);
    var b := Note(a, id);
    forall k | k in b.groups && k !in Lost(a, id).groups
      ensures Heads(cargo, k) && Dead(cargo, got, base, k)
    {
      SpannedIsDead(cargo, b, got, base, k, id);
    }
    DropDead(cargo, b, Lost(a, id), got, base);
  }

  lemma SpannedIsDead(cargo: seq<Cargo>, b: Assembler, got: set<nat>, base: int, k: Id, id: nat)
    requires Sender(cargo) && Held(cargo, b, got, base) && id < |cargo| && id < base && id !in got
    requires k in b.groups && Spans(k, b.groups[k], id)
    ensures Heads(cargo, k) && Dead(cargo, got, base, k)
  {
    hide Settled, Filled, IsFragment, Has, Sender;
    SizeBound(cargo, k);
    Short(cargo);
    SignedSmall(id - k);
    assert Missing(got, base, k, id - k);
  }

  lemma Short(cargo: seq<Cargo>)
    requires Sender(cargo)
    ensures |cargo| <= MAX_SYMBOLS
  {
  }

  // ---------- a symbol arrives ----------

  /** What the arrival of a symbol completes, given the symbols got before it. */
  ghost function Delivered(cargo: seq<Cargo>, got: set<nat>, id: nat): seq<Vector>
    requires Sender(cargo) && id < |cargo|
  {
    match cargo[id]
    case Whole(frames) => frames
    case Part(frame, limit, index) =>
      PartHead(cargo, id);
      if AllGot(cargo, got + {id}, id - index) then [frame] else []
  }

  lemma PartHead(cargo: seq<Cargo>, id: nat)
    requires Sender(cargo) && id < |cargo| && cargo[id].Part?
    ensures cargo[id].index <= id && Heads(cargo, id - cargo[id].index)
    ensures Size(cargo, id - cargo[id].index) == PartCount(cargo[id]) > cargo[id].index
    ensures cargo[id - cargo[id].index] == cargo[id].(index := 0)
  {
    hide FragmentCount;
    assert WithItsGroup(cargo, id);
    assert InGroup(cargo, id - cargo[id].index, 0);
    assert InGroup(cargo, id - cargo[id].index, cargo[id].index);
  }

  /** Only the fragments' own group contains them. */
  lemma OneGroup(cargo: seq<Cargo>, first: nat, id: nat)
    requires Sender(cargo) && Heads(cargo, first) && first <= id < first + Size(cargo, first)
    ensures id < |cargo| && cargo[id] == cargo[first].(index := id - first)
  {
    hide FragmentCount;
    assert WithItsGroup(cargo, first);
    assert InGroup(cargo, first, id - first);
  }

  /** A new symbol, not behind the window, leaves dead groups dead. */
  lemma DeadEither(cargo: seq<Cargo>, got: set<nat>, base: int, first: nat, id: nat)
    requires Heads(cargo, first) && base <= id
    ensures Dead(cargo, got + {id}, base, first) <==> Dead(cargo, got, base, first)
  {
    if j: nat :| j < Size(cargo, first) && Missing(got, base, first, j) {
      assert Missing(got + {id}, base, first, j);
    }
    if j: nat :| j < Size(cargo, first) && Missing(got + {id}, base, first, j) {
      assert Missing(got, base, first, j);
    }
  }

  lemma OtherGroupHolds(cargo: seq<Cargo>, got: set<nat>, base: int, first: nat, g: Group, id: nat)
    requires Heads(cargo, first) && base <= id && !(first <= id < first + Size(cargo, first))
    requires GroupHolds(cargo, got, base, first, g)
    ensures GroupHolds(cargo, got + {id}, base, first, g)
  {
    hide Dead, Filled, IsFragment, Heads;
    DeadEither(cargo, got, base, first, id);
    assert forall j: nat :: j < Size(cargo, first) ==> Has(got + {id}, first, j) == Has(got, first, j);
  }

  lemma OtherSettled(cargo: seq<Cargo>, got: set<nat>, base: int, first: nat, id: nat)
    requires Heads(cargo, first) && base <= id && !(first <= id < first + Size(cargo, first))
    requires Settled(cargo, got, base, first)
    ensures Settled(cargo, got + {id}, base, first)
  {
    hide Dead, Heads;
    DeadEither(cargo, got, base, first, id);
    assert forall j: nat :: j < Size(cargo, first) ==> Has(got + {id}, first, j) == Has(got, first, j);
  }

  /** The rest of the assembler is untouched by a symbol of another group. */
  lemma OthersHeld(cargo: seq<Cargo>, a: Assembler, b: Assembler, got: set<nat>, base: int, id: nat)
    requires Held(cargo, a, got, base) && base <= id && a.seen && b.seen && b.high == a.high
    requires forall k: nat :: Heads(cargo, k) && !(k <= id < k + Size(cargo, k)) ==>
               (k in b.groups <==> k in a.groups) && (k in a.groups ==> b.groups[k] == a.groups[k])
    requires forall k :: k in b.groups ==> Heads(cargo, k)
    requires forall k: nat :: Heads(cargo, k) && k <= id < k + Size(cargo, k) ==>
               if k in b.groups then GroupHolds(cargo, got + {id}, base, k, b.groups[k])
               else Settled(cargo, got + {id}, base, k)
    ensures Held(cargo, b, got + {id}, base)
  {
    hide GroupHolds, Settled, Heads, Size;
    forall first | first in b.groups
      ensures GroupHolds(cargo, got + {id}, base, first, b.groups[first])
    {
      if !(first <= id < first + Size(cargo, first)) {
        OtherGroupHolds(cargo, got, base, first, b.groups[first], id);
      }
    }
    forall first: nat | Heads(cargo, first) && first !in b.groups
      ensures Settled(cargo, got + {id}, base, first)
    {
      if !(first <= id < first + Size(cargo, first)) {
        OtherSettled(cargo, got, base, first, id);
      }
    }
  }

  lemma {:induction false} FilledPut(parts: seq<Vector>, i: nat, p: Vector)
    requires i < |parts| && parts[i] == [] && p != []
    ensures Filled(parts[i := p]) == Filled(parts) + 1
  {
    var n := |parts| - 1;
    if i < n {
      FilledPut(parts[..n], i, p);
      assert parts[i := p][..n] == parts[..n][i := p];
    } else {
      assert parts[i := p][..n] == parts[..n];
    }
  }

  lemma {:induction false} NoneFilled(count: nat)
    ensures Filled(NoParts(count)) == 0
  {
    if count > 0 {
      assert NoParts(count)[..count - 1] == NoParts(count - 1);
      NoneFilled(count - 1);
    }
  }

  lemma FreshGroupHolds(cargo: seq<Cargo>, got: set<nat>, base: int, first: nat)
    requires Heads(cargo, first) && Size(cargo, first) > 0
             && (Dead(cargo, got, base, first) || NoneGot(cargo, got, first))
    ensures GroupHolds(cargo, got, base, first, Group(NoParts(Size(cargo, first)), 0))
  {
    hide Filled, Dead, IsFragment;
    NoneFilled(Size(cargo, first));
  }

  /** Every part in place, the group is its frame. */
  lemma PartsAreFrame(frame: Vector, limit: nat, parts: seq<Vector>)
    requires limit > 0 && |parts| == FragmentCount(|frame|, limit)
    requires forall j: nat :: j < |parts| ==> IsFragment(frame, limit, j, parts[j])
    ensures Concat(parts) == frame
  {
    hide FragmentCount, Concat, FragmentsUpTo;
    FragmentsAre(frame, limit, |parts|);
    var all := FragmentsUpTo(frame, limit, |parts|);
    forall j: nat | j < |parts|
      ensures parts[j] == all[j]
    {
      assert IsFragment(frame, limit, j, parts[j]) && IsFragment(frame, limit, j, all[j]);
    }
    assert parts == all;
    AllFragmentsJoin(frame, limit);
  }

  /** One more fragment joins a group: the frame comes out exactly when all of its fragments have been got. */
  lemma PartJoins(cargo: seq<Cargo>, got: set<nat>, base: int, first: nat, g: Group, j: nat, payload: Vector)
    requires Heads(cargo, first) && GroupHolds(cargo, got, base, first, g) && j < |g.parts|
    requires base <= first + j && !Has(got, first, j) && IsFragment(cargo[first].frame, cargo[first].limit, j, payload)
    ensures var h := Group(g.parts[j := payload], g.held + 1);
            && g.parts[j] == [] && h.held <= |h.parts|
            && (h.held < |h.parts| ==>
                  GroupHolds(cargo, got + {first + j}, base, first, h) && !AllGot(cargo, got + {first + j}, first))
            && (h.held == |h.parts| ==>
                  AllGot(cargo, got + {first + j}, first) && Concat(h.parts) == cargo[first].frame)
  {
    hide Dead, Filled, IsFragment, Fragment, Concat;
    var more, h := got + {first + j}, Group(g.parts[j := payload], g.held + 1);
    FragmentFull(cargo[first].frame, cargo[first].limit, j, payload);
    FilledPut(g.parts, j, payload);
    FilledBound(h.parts);
    DeadEither(cargo, got, base, first, first + j);
    assert forall i: nat :: i < |g.parts| ==> (Has(more, first, i) <==> i == j || Has(got, first, i));
    if h.held == |h.parts| {
      assert forall i: nat :: i < |h.parts| ==> h.parts[i] != [] && (i != j ==> g.parts[i] == h.parts[i]);
      PartsAreFrame(cargo[first].frame, cargo[first].limit, h.parts);
    } else if Dead(cargo, more, base, first) {
      DeadNotAll(cargo, more, base, first);
    }
  }

  lemma DeadNotAll(cargo: seq<Cargo>, got: set<nat>, base: int, first: nat)
    requires Heads(cargo, first) && Dead(cargo, got, base, first)
    ensures !AllGot(cargo, got, first)
  {
    var j: nat :| j < Size(cargo, first) && Missing(got, base, first, j);
    assert !Has(got, first, j);
  }

  lemma ParsedCargo(c: Cargo, v: Vector)
    requires Sendable(c) && Padded(v, VectorOf(c))
    ensures c.Whole? ==> ParseSymbol(v) == Parsed(Pack(c.frames), 0, 1)
    ensures c.Part? ==> ParseSymbol(v) == Parsed(Payload(c), c.index, PartCount(c))
                        && IsFragment(c.frame, c.limit, c.index, Payload(c))
  {
    hide ParseSymbol, EncodeSymbol, FragmentCount;
    PayloadFits(c);
    if c.Whole? {
      SymbolRoundTrip(Payload(c), 0, 1, v);
    } else {
      FragmentPlace(|c.frame|, c.limit, c.index);
      SymbolRoundTrip(Payload(c), c.index, PartCount(c), v);
    }
  }

  lemma WholeArrives(cargo: seq<Cargo>, a: Assembler, got: set<nat>, base: int, id: nat, v: Vector)
    requires Sender(cargo) && Held(cargo, a, got, base) && id < |cargo| && id !in got && base <= id < base + WIDTH
    requires cargo[id].Whole? && Padded(v, VectorOf(cargo[id]))
    ensures var r := Arrived(a, id, v);
            && r.valid && r.frames == cargo[id].frames && Held(cargo, r.state, got + {id}, base)
  {
    hide GroupHolds, Settled, Note, Sender, ParseFrames, Pack, ParseSymbol, Padded, Heads, Size;
    SenderAt(cargo, id);
    NoteHeld(cargo, a, got, base, id);
    ParsedCargo(cargo[id], v);
    PackRoundTrip(cargo[id].frames, []);
    assert Pack(cargo[id].frames) + [] == Pack(cargo[id].frames);
    assert cargo[id].frames + ParseFrames([]) == cargo[id].frames by { ParseNothing(); }
    var b := Note(a, id);
    forall k: nat | Heads(cargo, k)
      ensures !(k <= id < k + Size(cargo, k))
    {
      NotInGroup(cargo, k, id);
    }
    OthersHeld(cargo, b, b, got, base, id);
  }

  lemma SenderAt(cargo: seq<Cargo>, id: nat)
    requires Sender(cargo) && id < |cargo|
    ensures Sendable(cargo[id]) && |cargo| <= MAX_SYMBOLS && (cargo[id].Part? ==> PartCount(cargo[id]) != 1)
  {
  }

  lemma NotInGroup(cargo: seq<Cargo>, k: nat, id: nat)
    requires Sender(cargo) && Heads(cargo, k) && id < |cargo| && cargo[id].Whole?
    ensures !(k <= id < k + Size(cargo, k))
  {
    if k <= id < k + Size(cargo, k) {
      OneGroup(cargo, k, id);
    }
  }

  lemma PartArrives(cargo: seq<Cargo>, a: Assembler, got: set<nat>, base: int, id: nat, v: Vector)
    requires Sender(cargo) && Held(cargo, a, got, base) && id < |cargo| && id !in got && base <= id < base + WIDTH
    requires cargo[id].Part? && Padded(v, VectorOf(cargo[id]))
    ensures var r := Arrived(a, id, v);
            && r.valid && r.frames == Delivered(cargo, got, id) && Held(cargo, r.state, got + {id}, base)
  {
    hide GroupHolds, Settled, Note, Sender, ParseSymbol, Padded, Heads, Size, AllGot, TakePart, Wrap;
    SenderAt(cargo, id);
    NoteHeld(cargo, a, got, base, id);
    ParsedCargo(cargo[id], v);
    PartHead(cargo, id);
    WrapSmall(id - cargo[id].index);
    TakePartHeld(cargo, Note(a, id), got, base, id, Payload(cargo[id]));
  }

  lemma TakePartHeld(cargo: seq<Cargo>, b: Assembler, got: set<nat>, base: int, id: nat, payload: Vector)
    requires Sender(cargo) && Held(cargo, b, got, base) && b.seen && id < |cargo| && id !in got && base <= id
    requires cargo[id].Part? && IsFragment(cargo[id].frame, cargo[id].limit, cargo[id].index, payload)
    requires cargo[id].limit > 0 && cargo[id].index <= id < MODULUS
    ensures var r := TakePart(b, id - cargo[id].index, payload, cargo[id].index, PartCount(cargo[id]));
            r.1 == Delivered(cargo, got, id) && Held(cargo, r.0, got + {id}, base)
  {
    hide GroupHolds, Settled, Sender, Heads, Size, AllGot, Filled, Concat, FragmentCount, IsFragment, Dead, NoneGot;
    var index, first := cargo[id].index, id - cargo[id].index;
    PartHead(cargo, id);
    var g := if first in b.groups then b.groups[first] else Group(NoParts(PartCount(cargo[id])), 0);
    StartedGroup(cargo, b, got, base, first, id);
    GroupSize(cargo, got, base, first, g);
    PartJoins(cargo, got, base, first, g, index, payload);
    var r := TakePart(b, first, payload, index, PartCount(cargo[id]));
    forall k: nat | Heads(cargo, k) && k <= id < k + Size(cargo, k)
      ensures k == first
    {
      OneGroup(cargo, k, id);
    }
    if first !in r.0.groups {
      assert Settled(cargo, got + {id}, base, first) by { AllIsSettled(cargo, got + {id}, base, first); }
    }
    OthersHeld(cargo, b, r.0, got, base, id);
  }

  lemma AllIsSettled(cargo: seq<Cargo>, got: set<nat>, base: int, first: nat)
    requires Heads(cargo, first) && AllGot(cargo, got, first)
    ensures Settled(cargo, got, base, first)
  {
  }

  lemma GroupSize(cargo: seq<Cargo>, got: set<nat>, base: int, first: nat, g: Group)
    requires Heads(cargo, first) && GroupHolds(cargo, got, base, first, g)
    ensures |g.parts| == Size(cargo, first)
  {
  }

  /** The group a fragment finds or starts. */
  lemma StartedGroup(cargo: seq<Cargo>, b: Assembler, got: set<nat>, base: int, first: nat, id: nat)
    requires Held(cargo, b, got, base) && Heads(cargo, first) && id !in got && first <= id < first + Size(cargo, first)
    ensures GroupHolds(cargo, got, base, first,
                       if first in b.groups then b.groups[first] else Group(NoParts(Size(cargo, first)), 0))
  {
    hide GroupHolds, Dead, NoneGot;
    if first !in b.groups {
      assert !Has(got, first, id - first);
      FreshGroupHolds(cargo, got, base, first);
    }
  }

  /** The arrival of a symbol hands up exactly what it completes. */
  lemma ArrivedHeld(cargo: seq<Cargo>, a: Assembler, got: set<nat>, base: int, id: nat, v: Vector)
    requires Sender(cargo) && Held(cargo, a, got, base) && id < |cargo| && id !in got && base <= id < base + WIDTH
    requires Padded(v, VectorOf(cargo[id]))
    ensures var r := Arrived(a, id, v);
            && r.valid && r.frames == Delivered(cargo, got, id) && Held(cargo, r.state, got + {id}, base)
  {
    hide Held, Arrived, AllGot, Sender, VectorOf;
    SenderAt(cargo, id);
    if cargo[id].Whole? {
      WholeArrives(cargo, a, got, base, id, v);
    } else {
      PartHead(cargo, id);
      PartArrives(cargo, a, got, base, id, v);
    }
  }
}
