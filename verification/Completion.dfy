/** Counting what has been handed up: each frame once, when the last symbol carrying it is got. */
module Completion {
  import opened LinearSystem
  import opened Frames
  import opened Packing
  import opened Assembly

  /** The frames whose every symbol has been got, among those that start before position n. */
  ghost function Complete(cargo: seq<Cargo>, got: set<nat>, n: nat): seq<Vector>
    requires n <= |cargo|
  {
    if n == 0 then [] else Complete(cargo, got, n - 1) + StartingAt(cargo, got, n - 1)
  }

  ghost function StartingAt(cargo: seq<Cargo>, got: set<nat>, at: nat): seq<Vector>
    requires at < |cargo|
  {
    match cargo[at]
    case Whole(frames) => if at in got then frames else []
    case Part(frame, _, _) => if Heads(cargo, at) && AllGot(cargo, got, at) then [frame] else []
  }

  /** Where the frames a symbol carries start. */
  ghost function Home(cargo: seq<Cargo>, id: nat): nat
    requires Sender(cargo) && id < |cargo|
  {
    if cargo[id].Whole? then id else
      PartHead(cargo, id);
      id - cargo[id].index
  }

  /** A new symbol completes what it delivers, all of it where its frames start. */
  lemma StartingAtGrows(cargo: seq<Cargo>, got: set<nat>, id: nat, at: nat)
    requires Sender(cargo) && id < |cargo| && id !in got && at < |cargo|
    ensures StartingAt(cargo, got + {id}, at)
         == if at == Home(cargo, id) then Delivered(cargo, got, id) else StartingAt(cargo, got, at)
    ensures at == Home(cargo, id) ==> StartingAt(cargo, got, at) == []
  {
    hide FragmentCount, Sender;
    if cargo[id].Part? {
      PartHead(cargo, id);
    }
    if at == Home(cargo, id) {
      if cargo[id].Part? {
        assert !Has(got, at, cargo[id].index);
      }
    } else if cargo[at].Part? && Heads(cargo, at) {
      if at <= id < at + Size(cargo, at) {
        OneGroup(cargo, at, id);
      }
      assert forall j: nat :: j < Size(cargo, at) ==> Has(got + {id}, at, j) == Has(got, at, j);
    }
  }

  lemma CompleteStep(cargo: seq<Cargo>, got: set<nat>, n: nat)
    requires 0 < n <= |cargo|
    ensures multiset(Complete(cargo, got, n))
            == multiset(Complete(cargo, got, n - 1)) + multiset(StartingAt(cargo, got, n - 1))
  {
    hide StartingAt;
  }

  lemma {:induction false} CompleteGrowsTo(cargo: seq<Cargo>, got: set<nat>, id: nat, n: nat)
    requires Sender(cargo) && id < |cargo| && id !in got && n <= |cargo|
    ensures multiset(Complete(cargo, got + {id}, n))
         == multiset(Complete(cargo, got, n))
            + if Home(cargo, id) < n then multiset(Delivered(cargo, got, id)) else multiset{}
  {
    hide StartingAt, Delivered, Home, Sender;
    if n > 0 {
      CompleteGrowsTo(cargo, got, id, n - 1);
      StartingAtGrows(cargo, got, id, n - 1);
      CompleteStep(cargo, got, n);
      CompleteStep(cargo, got + {id}, n);
    }
  }

  lemma HomeIsHere(cargo: seq<Cargo>, id: nat)
    requires Sender(cargo) && id < |cargo|
    ensures Home(cargo, id) < |cargo|
  {
    if cargo[id].Part? {
      PartHead(cargo, id);
    }
  }

  lemma CompleteGrows(cargo: seq<Cargo>, got: set<nat>, id: nat)
    requires Sender(cargo) && id < |cargo| && id !in got
    ensures multiset(Complete(cargo, got + {id}, |cargo|))
         == multiset(Complete(cargo, got, |cargo|)) + multiset(Delivered(cargo, got, id))
  {
    hide Delivered, Home, Sender, Complete;
    CompleteGrowsTo(cargo, got, id, |cargo|);
    HomeIsHere(cargo, id);
  }

  lemma {:induction false} NothingComplete(cargo: seq<Cargo>, n: nat)
    requires Sender(cargo) && n <= |cargo|
    ensures Complete(cargo, {}, n) == []
  {
    hide Sender, FragmentCount;
    if n > 0 {
      NothingComplete(cargo, n - 1);
      if Heads(cargo, n - 1) {
        SizeBound(cargo, n - 1);
        assert !Has({}, n - 1, 0);
      }
    }
  }

  /** Got in full, the symbols hand up every frame that was sent, in some order and once each. */
  lemma {:induction false} EverythingComplete(cargo: seq<Cargo>, got: set<nat>, n: nat)
    requires Sender(cargo) && n <= |cargo| && forall id: nat :: id < |cargo| ==> id in got
    ensures Complete(cargo, got, n) == FramesIn(cargo[..n])
  {
    hide Sender, FragmentCount;
    if n > 0 {
      EverythingComplete(cargo, got, n - 1);
      assert cargo[..n][..n - 1] == cargo[..n - 1];
      SenderAt(cargo, n - 1);
      var at: nat := n - 1;
      if Heads(cargo, at) {
        SizeBound(cargo, at);
        assert forall j: nat :: j < Size(cargo, at) ==> Has(got, at, j);
      }
    }
  }
}
