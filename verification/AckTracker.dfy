/**
 The sender's record of which bytes of an outbound stream the peer has: a
 cumulative point and sorted ranges above it, kept as the canonical form of a
 plain set of bytes.
 */
module AckTracker {

  /** A half-open range of byte offsets. */
  datatype Range = Range(start: nat, end: nat)

  /** What has been acknowledged. */
  datatype Acked = Acked(cumulative: nat, ranges: seq<Range>)

  predicate In(r: Range, b: nat) {
    r.start <= b < r.end
  }

  predicate InAny(rs: seq<Range>, b: nat) {
    exists i :: 0 <= i < |rs| && In(rs[i], b)
  }

  /** The plain set the record stands for. */
  predicate Has(a: Acked, b: nat) {
    b < a.cumulative || InAny(a.ranges, b)
  }

  /** Non-empty, in order, and with a gap before each. */
  predicate Spaced(rs: seq<Range>) {
    && (forall i :: 0 <= i < |rs| ==> rs[i].start < rs[i].end)
    && (forall i, j :: 0 <= i < j < |rs| ==> rs[i].end < rs[j].start)
  }

  /** The canonical form: spaced ranges that start beyond the cumulative point. */
  predicate Canonical(a: Acked) {
    Spaced(a.ranges) && forall i :: 0 <= i < |a.ranges| ==> a.cumulative < a.ranges[i].start
  }

  // ---------- merging ----------

  predicate Before(a: Range, b: Range) {
    a.start < b.start || (a.start == b.start && a.end <= b.end)
  }

  predicate Sorted(rs: seq<Range>) {
    forall i, j :: 0 <= i < j < |rs| ==> Before(rs[i], rs[j])
  }

  function InsertSorted(rs: seq<Range>, r: Range): (out: seq<Range>)
    ensures multiset(out) == multiset(rs) + multiset{r}
  {
    if rs == [] || Before(rs[|rs| - 1], r) then rs + [r] else
      var n := |rs| - 1;
      assert rs == rs[..n] + [rs[n]];
      InsertSorted(rs[..n], r) + [rs[n]]
  }

  /** The ranges by start, then by end. */
  function Sort(rs: seq<Range>): (out: seq<Range>)
    ensures multiset(out) == multiset(rs)
  {
    if rs == [] then [] else
      var n := |rs| - 1;
      assert rs == rs[..n] + [rs[n]];
      InsertSorted(Sort(rs[..n]), rs[n])
  }

  /** Folds the next sorted range into those merged so far. */
  function Absorb(merged: seq<Range>, r: Range): (out: seq<Range>)
    requires merged != []
    ensures out != []
  {
    var n := |merged| - 1;
    if r.start <= merged[n].end then
      if r.end > merged[n].end then merged[n := Range(merged[n].start, r.end)] else merged
    else merged + [r]
  }

  function MergeFrom(merged: seq<Range>, rest: seq<Range>): seq<Range>
    requires merged != []
    decreases |rest|
  {
    if rest == [] then merged else MergeFrom(Absorb(merged, rest[0]), rest[1..])
  }

  /** Sorts and coalesces. */
  function Merge(rs: seq<Range>): seq<Range> {
    if |rs| < 2 then rs else
      var sorted := Sort(rs);
      assert |multiset(sorted)| == |multiset(rs)|;
      MergeFrom(sorted[..1], sorted[1..])
  }

  // ---------- folding into the cumulative point ----------

  /** One pass over the ranges: drop what is below the point, advance over what touches it, keep the rest. */
  function Pass(cumulative: nat, kept: seq<Range>, rest: seq<Range>): (a: Acked)
    ensures |a.ranges| <= |kept| + |rest|
    decreases |rest|
  {
    if rest == [] then Acked(cumulative, kept)
    else if rest[0].end <= cumulative then Pass(cumulative, kept, rest[1..])
    else if rest[0].start <= cumulative then Pass(rest[0].end, kept, rest[1..])
    else Pass(cumulative, kept + [rest[0]], rest[1..])
  }

  /** Passes until nothing more moves. */
  function Settle(a: Acked): Acked
    decreases |a.ranges|
  {
    var p := Pass(a.cumulative, [], a.ranges);
    if |p.ranges| < |a.ranges| then Settle(p) else p
  }

  function Compact(a: Acked): Acked {
    Settle(Pass(a.cumulative, [], a.ranges))
  }

  // ---------- the operations ----------

  /** Every byte below the sequence has arrived. */
  function Advance(a: Acked, sequence: nat): Acked {
    if sequence <= a.cumulative then a else Compact(a.(cumulative := sequence))
  }

  function Useful(cumulative: nat, rs: seq<Range>): (out: seq<Range>) {
    if rs == [] then [] else
      var r := rs[|rs| - 1];
      var rest := Useful(cumulative, rs[..|rs| - 1]);
      if r.end <= r.start || r.end <= cumulative then rest else rest + [r]
  }

  /** The peer holds these ranges out of order. */
  function AddRanges(a: Acked, rs: seq<Range>): Acked {
    if rs == [] then a else Compact(a.(ranges := Merge(a.ranges + Useful(a.cumulative, rs))))
  }

  /** Scans the ranges for the first byte from start on that is missing. */
  function CoveredFrom(rs: seq<Range>, start: nat, end: nat): bool
    decreases |rs|
  {
    if rs == [] || rs[0].start > start then false
    else if rs[0].end > start then rs[0].end >= end || CoveredFrom(rs[1..], rs[0].end, end)
    else CoveredFrom(rs[1..], start, end)
  }

  /** Whether every byte of start..end is acknowledged, as the program decides it. */
  function Covered(a: Acked, start: nat, end: nat): bool {
    if end <= start || end <= a.cumulative then true else
      CoveredFrom(a.ranges, if start < a.cumulative then a.cumulative else start, end)
  }

  // ---------- merging keeps the set ----------

  lemma BeforeIsTotal(a: Range, b: Range, c: Range)
    ensures Before(a, b) || Before(b, a)
    ensures Before(a, b) && Before(b, c) ==> Before(a, c)
  {
  }

  lemma {:induction false} InsertSortedSorted(rs: seq<Range>, r: Range)
    requires Sorted(rs)
    ensures Sorted(InsertSorted(rs, r))
  {
    hide Before;
    if rs != [] {
      var n := |rs| - 1;
      if Before(rs[n], r) {
        forall i | 0 <= i < n
          ensures Before(rs[i], r)
        {
          BeforeIsTotal(rs[i], rs[n], r);
        }
      } else {
        InsertSortedSorted(rs[..n], r);
        BeforeIsTotal(r, rs[n], r);
        var out := InsertSorted(rs[..n], r);
        forall i | 0 <= i < |out|
          ensures Before(out[i], rs[n])
        {
          assert out[i] in multiset(out);
          assert out[i] == r || out[i] in rs[..n];
        }
      }
    }
  }

  lemma {:induction false} SortSorted(rs: seq<Range>)
    ensures Sorted(Sort(rs))
  {
    if rs != [] {
      var n := |rs| - 1;
      SortSorted(rs[..n]);
      InsertSortedSorted(Sort(rs[..n]), rs[n]);
    }
  }

  lemma SameElementsSameBytes(a: seq<Range>, b: seq<Range>, x: nat)
    requires multiset(a) == multiset(b)
    ensures InAny(a, x) <==> InAny(b, x)
  {
    if i :| 0 <= i < |a| && In(a[i], x) {
      assert a[i] in multiset(b);
    }
    if i :| 0 <= i < |b| && In(b[i], x) {
      assert b[i] in multiset(a);
    }
  }

  lemma InAnyConcat(a: seq<Range>, b: seq<Range>, x: nat)
    ensures InAny(a + b, x) <==> InAny(a, x) || InAny(b, x)
  {
    if i :| 0 <= i < |a| && In(a[i], x) {
      assert (a + b)[i] == a[i];
    }
    if i :| 0 <= i < |b| && In(b[i], x) {
      assert (a + b)[|a| + i] == b[i];
    }
  }

  /** Ready to absorb: what is merged is spaced, and starts no later than what is to come. */
  predicate Mergeable(merged: seq<Range>, rest: seq<Range>) {
    && merged != [] && Spaced(merged) && Sorted(rest)
    && (forall i :: 0 <= i < |rest| ==> rest[i].start < rest[i].end)
    && (forall i :: 0 <= i < |rest| ==> merged[|merged| - 1].start <= rest[i].start)
  }

  lemma AbsorbSpaced(merged: seq<Range>, rest: seq<Range>)
    requires Mergeable(merged, rest) && rest != []
    ensures Mergeable(Absorb(merged, rest[0]), rest[1..])
  {
    var out, r := Absorb(merged, rest[0]), rest[0];
    AbsorbKeepsSpaced(merged, r);
    hide Spaced, Absorb;
    forall i | 0 <= i < |rest[1..]|
      ensures rest[1..][i] == rest[i + 1] && r.start <= rest[i + 1].start
    {
      assert Before(rest[0], rest[i + 1]);
    }
    assert Sorted(rest[1..]) by { SortedTail(rest); }
  }

  lemma SortedTail(rest: seq<Range>)
    requires Sorted(rest) && rest != []
    ensures Sorted(rest[1..])
  {
    hide Before;
    assert forall i :: 0 <= i < |rest[1..]| ==> rest[1..][i] == rest[i + 1];
  }

  lemma AbsorbKeepsSpaced(merged: seq<Range>, r: Range)
    requires merged != [] && Spaced(merged) && r.start < r.end && merged[|merged| - 1].start <= r.start
    ensures var out := Absorb(merged, r);
            Spaced(out) && merged[|merged| - 1].start <= out[|out| - 1].start <= r.start
  {
  }

  lemma AbsorbBytes(merged: seq<Range>, r: Range, x: nat)
    requires merged != [] && r.start < r.end && merged[|merged| - 1].start <= r.start
    ensures InAny(Absorb(merged, r), x) <==> InAny(merged, x) || In(r, x)
  {
    var n, out := |merged| - 1, Absorb(merged, r);
    assert out[n].start == merged[n].start && out[n].end >= merged[n].end;
    if i :| 0 <= i < |merged| && In(merged[i], x) {
      assert In(out[i], x);
    }
    if In(r, x) {
      assert In(out[if r.start <= merged[n].end then n else n + 1], x);
    }
    if i :| 0 <= i < |out| && In(out[i], x) {
      if i < n {
        assert In(merged[i], x);
      } else if i == n && !In(merged[n], x) {
        assert In(r, x);
      }
    }
  }

  lemma {:induction false} MergeFromKeeps(merged: seq<Range>, rest: seq<Range>)
    requires Mergeable(merged, rest)
    ensures Spaced(MergeFrom(merged, rest))
    ensures forall x: nat :: InAny(MergeFrom(merged, rest), x) <==> InAny(merged, x) || InAny(rest, x)
    decreases |rest|
  {
    hide Absorb;
    if rest != [] {
      AbsorbSpaced(merged, rest);
      MergeFromKeeps(Absorb(merged, rest[0]), rest[1..]);
      forall x: nat
        ensures InAny(MergeFrom(merged, rest), x) <==> InAny(merged, x) || InAny(rest, x)
      {
        AbsorbBytes(merged, rest[0], x);
        assert rest == [rest[0]] + rest[1..];
        InAnyConcat([rest[0]], rest[1..], x);
        assert [rest[0]][0] == rest[0];
      }
    }
  }

  lemma MergeKeeps(rs: seq<Range>)
    requires forall i :: 0 <= i < |rs| ==> rs[i].start < rs[i].end
    ensures Spaced(Merge(rs))
    ensures forall x: nat :: InAny(Merge(rs), x) <==> InAny(rs, x)
  {
    hide MergeFrom, InAny, Sort;
    if |rs| >= 2 {
      var sorted := Sort(rs);
      SortSorted(rs);
      assert |multiset(sorted)| == |multiset(rs)|;
      forall i | 0 <= i < |sorted|
        ensures sorted[i].start < sorted[i].end
      {
        assert sorted[i] in multiset(rs);
      }
      MergeFromKeeps(sorted[..1], sorted[1..]);
      forall x: nat
        ensures InAny(Merge(rs), x) <==> InAny(rs, x)
      {
        SameElementsSameBytes(sorted, rs, x);
        assert sorted == sorted[..1] + sorted[1..];
        InAnyConcat(sorted[..1], sorted[1..], x);
      }
    }
  }

  // ---------- folding keeps the set ----------

  /** What a pass has kept is canonical, and once it has kept something nothing later touches the point. */
  predicate Passing(cumulative: nat, kept: seq<Range>, rest: seq<Range>) {
    && Canonical(Acked(cumulative, kept)) && Spaced(rest)
    && (forall i, j :: 0 <= i < |kept| && 0 <= j < |rest| ==> kept[i].end < rest[j].start)
  }

  lemma {:induction false} PassKeeps(cumulative: nat, kept: seq<Range>, rest: seq<Range>)
    requires Passing(cumulative, kept, rest)
    ensures Canonical(Pass(cumulative, kept, rest))
    ensures forall x: nat ::
              Has(Pass(cumulative, kept, rest), x) <==> x < cumulative || InAny(kept, x) || InAny(rest, x)
    decreases |rest|
  {
    hide InAny;
    if rest != [] {
      var r, later := rest[0], rest[1..];
      var next := if r.end <= cumulative then Acked(cumulative, kept)
                  else if r.start <= cumulative then Acked(r.end, kept)
                  else Acked(cumulative, kept + [r]);
      PassStep(cumulative, kept, rest);
      PassKeeps(next.cumulative, next.ranges, later);
      forall x: nat
        ensures Has(Pass(cumulative, kept, rest), x) <==> x < cumulative || InAny(kept, x) || InAny(rest, x)
      {
        assert rest == [r] + later;
        InAnyConcat([r], later, x);
        InAnyConcat(kept, [r], x);
        InOne(r, x);
      }
    } else {
      forall x: nat
        ensures !InAny(rest, x)
      {
        InNone(x);
      }
    }
  }

  lemma InNone(x: nat)
    ensures !InAny([], x)
  {
  }

  lemma InOne(r: Range, x: nat)
    ensures InAny([r], x) <==> In(r, x)
  {
    assert [r][0] == r;
  }

  lemma PassStep(cumulative: nat, kept: seq<Range>, rest: seq<Range>)
    requires Passing(cumulative, kept, rest) && rest != []
    ensures Spaced(rest[1..])
    ensures rest[0].end <= cumulative ==> Passing(cumulative, kept, rest[1..])
    ensures cumulative < rest[0].end && rest[0].start <= cumulative ==> Passing(rest[0].end, kept, rest[1..])
    ensures cumulative < rest[0].start ==> Passing(cumulative, kept + [rest[0]], rest[1..])
  {
    var later := rest[1..];
    assert forall j :: 0 <= j < |later| ==> later[j] == rest[j + 1];
    if kept != [] {
      assert kept[0].end < rest[0].start;
    }
  }

  lemma {:induction false} PassIdle(cumulative: nat, kept: seq<Range>, rest: seq<Range>)
    requires forall i :: 0 <= i < |rest| ==> cumulative < rest[i].start < rest[i].end
    ensures Pass(cumulative, kept, rest) == Acked(cumulative, kept + rest)
    decreases |rest|
  {
    if rest != [] {
      PassIdle(cumulative, kept + [rest[0]], rest[1..]);
      assert kept + [rest[0]] + rest[1..] == kept + rest;
    } else {
      assert kept + rest == kept;
    }
  }

  /** Compaction gives the canonical form of the same set. */
  lemma CompactKeeps(a: Acked)
    requires Spaced(a.ranges)
    ensures Canonical(Compact(a))
    ensures forall x: nat :: Has(Compact(a), x) <==> Has(a, x)
  {
    hide InAny, Pass;
    PassKeeps(a.cumulative, [], a.ranges);
    var p := Pass(a.cumulative, [], a.ranges);
    PassIdle(p.cumulative, [], p.ranges);
    assert [] + p.ranges == p.ranges;
    assert Settle(p) == p;
    forall x: nat
      ensures !InAny([], x)
    {
      InNone(x);
    }
  }

  // ---------- the operations on the set ----------

  /** Advancing adds exactly the bytes below the sequence. */
  lemma AdvanceAdds(a: Acked, sequence: nat)
    requires Canonical(a)
    ensures Canonical(Advance(a, sequence))
    ensures forall x: nat :: Has(Advance(a, sequence), x) <==> Has(a, x) || x < sequence
  {
    hide InAny, Compact;
    if sequence > a.cumulative {
      CompactKeeps(a.(cumulative := sequence));
    }
  }

  lemma {:induction false} UsefulKeeps(cumulative: nat, rs: seq<Range>)
    ensures forall i :: 0 <= i < |Useful(cumulative, rs)| ==>
              Useful(cumulative, rs)[i].start < Useful(cumulative, rs)[i].end
    ensures forall x: nat :: x >= cumulative ==> (InAny(Useful(cumulative, rs), x) <==> InAny(rs, x))
    ensures forall x: nat :: InAny(Useful(cumulative, rs), x) ==> InAny(rs, x)
  {
    hide InAny;
    if rs != [] {
      var n := |rs| - 1;
      UsefulKeeps(cumulative, rs[..n]);
      var rest := Useful(cumulative, rs[..n]);
      forall x: nat
        ensures InAny(rs, x) <==> InAny(rs[..n], x) || In(rs[n], x)
        ensures InAny(rest + [rs[n]], x) <==> InAny(rest, x) || In(rs[n], x)
      {
        assert rs == rs[..n] + [rs[n]];
        InAnyConcat(rs[..n], [rs[n]], x);
        InAnyConcat(rest, [rs[n]], x);
        InOne(rs[n], x);
      }
    }
  }

  /** Adding ranges adds exactly their bytes. */
  lemma AddRangesAdds(a: Acked, rs: seq<Range>)
    requires Canonical(a)
    ensures Canonical(AddRanges(a, rs))
    ensures forall x: nat :: Has(AddRanges(a, rs), x) <==> Has(a, x) || InAny(rs, x)
  {
    hide InAny, Compact, Merge, Useful;
    if rs != [] {
      var useful := Useful(a.cumulative, rs);
      UsefulKeeps(a.cumulative, rs);
      MergeKeeps(a.ranges + useful);
      CompactKeeps(a.(ranges := Merge(a.ranges + useful)));
      forall x: nat
        ensures InAny(a.ranges + useful, x) <==> InAny(a.ranges, x) || InAny(useful, x)
      {
        InAnyConcat(a.ranges, useful, x);
      }
    } else {
      forall x: nat
        ensures !InAny(rs, x)
      {
        InNone(x);
      }
    }
  }

  // ---------- one set has one canonical form ----------

  lemma HasAt(a: Acked, i: nat, x: nat)
    requires i < |a.ranges| && In(a.ranges[i], x)
    ensures Has(a, x)
  {
  }

  /** The end of each canonical run is missing. */
  lemma EndsMissing(a: Acked)
    requires Canonical(a)
    ensures !Has(a, a.cumulative) && forall i :: 0 <= i < |a.ranges| ==> !Has(a, a.ranges[i].end)
  {
    forall i | 0 <= i < |a.ranges|
      ensures !Has(a, a.ranges[i].end)
    {
      forall j | 0 <= j < |a.ranges|
        ensures !In(a.ranges[j], a.ranges[i].end)
      {
        if j < i {
          assert a.ranges[j].end < a.ranges[i].start;
        } else if i < j {
          assert a.ranges[i].end < a.ranges[j].start;
        }
      }
    }
  }

  /** Two canonical records of the same set agree on the point and on every range in turn. */
  lemma {:induction false} RangesAgree(a: Acked, b: Acked, n: nat)
    requires Canonical(a) && Canonical(b) && forall x: nat :: Has(a, x) <==> Has(b, x)
    requires n <= |a.ranges| && n <= |b.ranges| && a.ranges[..n] == b.ranges[..n] && a.cumulative == b.cumulative
    ensures a.ranges == b.ranges
    decreases |a.ranges| - n
  {
    if n < |a.ranges| {
      NextRange(a, b, n);
      NextRange(b, a, n);
      RangesAgree(a, b, n + 1);
    } else if n < |b.ranges| {
      NextRange(b, a, n);
    }
  }

  /** The range of a at n starts and ends where b's does. */
  lemma NextRange(a: Acked, b: Acked, n: nat)
    requires Canonical(a) && Canonical(b) && forall x: nat :: Has(a, x) <==> Has(b, x)
    requires n < |a.ranges| && n <= |b.ranges| && a.ranges[..n] == b.ranges[..n] && a.cumulative == b.cumulative
    ensures n < |b.ranges| && b.ranges[n].start <= a.ranges[n].start && a.ranges[n].end <= b.ranges[n].end
  {
    hide Canonical;
    var r := a.ranges[n];
    RangeFacts(a, n);
    HasAt(a, n, r.start);
    assert Has(b, r.start);
    var j :| 0 <= j < |b.ranges| && In(b.ranges[j], r.start);
    if j < n {
      assert b.ranges[j] == b.ranges[..n][j] == a.ranges[j];
      RangesApart(a, j, n);
    }
    RangesApart(b, n, j);
    // The run of b that holds r.start cannot stop inside r.
    SameRunEnds(a, b, n, j);
    if j > n {
      var x := b.ranges[n].start;
      RangeFacts(b, n);
      forall m | 0 <= m < n
        ensures !In(a.ranges[m], x)
      {
        assert a.ranges[m] == a.ranges[..n][m] == b.ranges[m];
        RangesApart(b, m, n);
      }
      MissingBetween(a, n, x);
      HasAt(b, n, x);
    }
  }

  lemma MissingBetween(a: Acked, n: nat, x: nat)
    requires Canonical(a) && n < |a.ranges| && a.cumulative <= x < a.ranges[n].start
    requires forall m :: 0 <= m < n ==> !In(a.ranges[m], x)
    ensures !Has(a, x)
  {
    forall m | n < m < |a.ranges|
      ensures !In(a.ranges[m], x)
    {
      assert a.ranges[n].end < a.ranges[m].start;
    }
  }

  lemma RangeFacts(a: Acked, i: nat)
    requires Canonical(a) && i < |a.ranges|
    ensures a.cumulative < a.ranges[i].start < a.ranges[i].end
  {
  }

  lemma RangesApart(a: Acked, i: nat, j: nat)
    requires Canonical(a) && j < |a.ranges|
    ensures i < j ==> a.ranges[i].end < a.ranges[j].start
  {
  }

  lemma SameRunEnds(a: Acked, b: Acked, i: nat, j: nat)
    requires Canonical(a) && Canonical(b) && forall x: nat :: Has(a, x) <==> Has(b, x)
    requires i < |a.ranges| && j < |b.ranges| && In(b.ranges[j], a.ranges[i].start)
    ensures a.ranges[i].end <= b.ranges[j].end
  {
    EndsMissing(b);
    var e := b.ranges[j].end;
    if e < a.ranges[i].end {
      HasAt(a, i, e);
    }
  }

  lemma PointAgrees(a: Acked, b: Acked)
    requires Canonical(a) && Canonical(b) && forall x: nat :: Has(a, x) <==> Has(b, x)
    ensures a.cumulative == b.cumulative
  {
    EndsMissing(a);
    EndsMissing(b);
    assert a.cumulative < b.cumulative ==> Has(b, a.cumulative);
    assert b.cumulative < a.cumulative ==> Has(a, b.cumulative);
  }

  /** The canonical form of a set is unique. */
  lemma CanonicalUnique(a: Acked, b: Acked)
    requires Canonical(a) && Canonical(b) && forall x: nat :: Has(a, x) <==> Has(b, x)
    ensures a == b
  {
    PointAgrees(a, b);
    RangesAgree(a, b, 0);
  }

  // ---------- reading the record ----------

  lemma {:induction false} CoveredFromExact(rs: seq<Range>, start: nat, end: nat)
    requires Spaced(rs) && start < end
    ensures CoveredFrom(rs, start, end) <==> forall x: nat :: start <= x < end ==> InAny(rs, x)
    decreases |rs|
  {
    if rs == [] {
      InNone(start);
      assert !InAny(rs, start);
    } else {
      var later := rs[1..];
      assert rs == [rs[0]] + later;
      assert forall j :: 0 <= j < |later| ==> later[j] == rs[j + 1];
      forall x: nat
        ensures InAny(rs, x) <==> In(rs[0], x) || InAny(later, x)
      {
        InAnyConcat([rs[0]], later, x);
        InOne(rs[0], x);
      }
      if rs[0].start > start {
        NoneBelow(rs, start);
        assert !InAny(rs, start);
      } else if rs[0].end > start {
        if rs[0].end < end {
          CoveredFromExact(later, rs[0].end, end);
          CoveredSplit(rs, start, end);
        }
      } else {
        CoveredFromExact(later, start, end);
      }
    }
  }

  lemma NoneBelow(rs: seq<Range>, x: nat)
    requires Spaced(rs) && rs != [] && x < rs[0].start
    ensures !InAny(rs, x)
  {
  }

  /** Past the first range, coverage is the later ranges' affair. */
  lemma CoveredSplit(rs: seq<Range>, start: nat, end: nat)
    requires Spaced(rs) && rs != [] && rs[0].start <= start < rs[0].end < end
    ensures (forall x: nat :: start <= x < end ==> InAny(rs, x))
       <==> (forall x: nat :: rs[0].end <= x < end ==> InAny(rs[1..], x))
  {
    var later := rs[1..];
    assert rs == [rs[0]] + later;
    forall x: nat
      ensures InAny(rs, x) <==> In(rs[0], x) || InAny(later, x)
    {
      InAnyConcat([rs[0]], later, x);
      InOne(rs[0], x);
    }
  }

  /** The program's answer is exactly whether every byte of the range is in the set. */
  lemma CoveredExact(a: Acked, start: nat, end: nat)
    requires Canonical(a)
    ensures Covered(a, start, end) <==> forall x: nat :: start <= x < end ==> Has(a, x)
  {
    hide InAny, CoveredFrom;
    if start < end && a.cumulative < end {
      var from := if start < a.cumulative then a.cumulative else start;
      CoveredFromExact(a.ranges, from, end);
      assert from >= start && (forall x: nat :: start <= x < from ==> Has(a, x));
      if forall x: nat :: start <= x < end ==> Has(a, x) {
        forall x: nat | from <= x < end
          ensures InAny(a.ranges, x)
        {
          assert Has(a, x);
        }
      }
    }
  }

  // ---------- the tracker as it runs ----------

  class Tracker {
    var cumulative: nat
    var ranges: seq<Range>
    /** Advances whenever the acknowledged set may have changed. */
    var generation: nat

    ghost function Model(): Acked
      reads this
    {
      Acked(cumulative, ranges)
    }

    ghost predicate Valid()
      reads this
    {
      Canonical(Model())
    }

    constructor ()
      ensures Valid() && forall x: nat :: !Has(Model(), x)
    {
      cumulative, ranges, generation := 0, [], 0;
    }

    /** Records a cumulative acknowledgement. */
    method AdvanceTo(sequence: nat)
      requires Valid()
      modifies this
      ensures Valid() && Model() == Advance(old(Model()), sequence)
      ensures forall x: nat :: Has(Model(), x) <==> old(Has(Model(), x)) || x < sequence
      ensures generation == if sequence > old(cumulative) then old(generation) + 1 else old(generation)
    {
      AdvanceAdds(Model(), sequence);
      if sequence <= cumulative {
        return;
      }
      cumulative, ranges := CompactRanges(sequence, ranges);
      generation := generation + 1;
    }

    /** Records ranges the peer holds out of order. */
    method Add(reported: seq<Range>)
      requires Valid()
      modifies this
      ensures Valid() && Model() == AddRanges(old(Model()), reported)
      ensures forall x: nat :: Has(Model(), x) <==> old(Has(Model(), x)) || InAny(reported, x)
      ensures generation == if reported == [] then old(generation) else old(generation) + 1
    {
      AddRangesAdds(Model(), reported);
      if |reported| == 0 {
        return;
      }
      var useful := KeepUseful(cumulative, reported);
      var merged := MergeRanges(ranges + useful);
      cumulative, ranges := CompactRanges(cumulative, merged);
      generation := generation + 1;
    }

    /** Whether every byte of start..end has been acknowledged. */
    method IsCovered(start: nat, end: nat) returns (covered: bool)
      requires Valid()
      ensures covered <==> forall x: nat :: start <= x < end ==> Has(Model(), x)
    {
      hide Has, Covered;
      var now := Acked(cumulative, ranges);
      CoveredExact(now, start, end);
      covered := Covers(now, start, end);
      assert now == Model();
    }

    /** A copy of the acknowledged set, to be tested without the lock. */
    method Snapshot() returns (copy: Acked)
      requires Valid()
      ensures Canonical(copy) && forall x: nat :: Has(copy, x) <==> Has(Model(), x)
    {
      copy := Acked(cumulative, ranges);
    }
  }

  /** The scan that answers a coverage question. */
  method Covers(a: Acked, start: nat, end: nat) returns (covered: bool)
    ensures covered == Covered(a, start, end)
  {
    if end <= start || end <= a.cumulative {
      return true;
    }
    var from: nat := if start < a.cumulative then a.cumulative else start;
    ghost var want := CoveredFrom(a.ranges, from, end);
    var i := 0;
    assert a.ranges[0..] == a.ranges;
    while i < |a.ranges|
      invariant i <= |a.ranges| && CoveredFrom(a.ranges[i..], from, end) == want
    {
      var r := a.ranges[i];
      assert a.ranges[i..][1..] == a.ranges[i + 1..];
      if r.start > from {
        return false;
      }
      if r.end > from {
        from := r.end;
        if from >= end {
          return true;
        }
      }
      i := i + 1;
    }
    return false;
  }

  /** The greatest byte offset the peer has reported receiving. */
  method Highest(a: Acked) returns (top: nat)
    requires Canonical(a)
    ensures forall x: nat :: Has(a, x) ==> x < top
    ensures top > 0 ==> Has(a, top - 1)
  {
    top := a.cumulative;
    var i := 0;
    while i < |a.ranges|
      invariant i <= |a.ranges| && a.cumulative <= top
      invariant forall j :: 0 <= j < i ==> a.ranges[j].end <= top
      invariant top > 0 ==> Has(a, top - 1)
    {
      if a.ranges[i].end > top {
        top := a.ranges[i].end;
        HasAt(a, i, top - 1);
      }
      i := i + 1;
    }
  }

  /** Drops reported ranges that are empty or already below the point. */
  method KeepUseful(cumulative: nat, reported: seq<Range>) returns (useful: seq<Range>)
    ensures useful == Useful(cumulative, reported)
  {
    useful := [];
    var i := 0;
    while i < |reported|
      invariant i <= |reported| && useful == Useful(cumulative, reported[..i])
    {
      var r := reported[i];
      assert reported[..i + 1][..i] == reported[..i];
      if !(r.end <= r.start || r.end <= cumulative) {
        useful := useful + [r];
      }
      i := i + 1;
    }
    assert reported[..i] == reported;
  }

  method MergeRanges(rs: seq<Range>) returns (merged: seq<Range>)
    ensures merged == Merge(rs)
  {
    if |rs| < 2 {
      return rs;
    }
    hide Sort, MergeFrom;
    var sorted := Sort(rs);
    SortKeepsLength(rs);
    merged := sorted[..1];
    var i := 1;
    while i < |sorted|
      invariant 1 <= i <= |sorted| && merged != []
      invariant MergeFrom(merged, sorted[i..]) == MergeFrom(sorted[..1], sorted[1..])
    {
      hide Sort, MergeFrom;
      var r, n := sorted[i], |merged| - 1;
      MergeFromStep(merged, sorted, i);
      if r.start <= merged[n].end {
        if r.end > merged[n].end {
          merged := merged[n := Range(merged[n].start, r.end)];
        }
      } else {
        merged := merged + [r];
      }
      i := i + 1;
    }
    MergeFromEnd(merged, sorted);
  }

  lemma SortKeepsLength(rs: seq<Range>)
    ensures |Sort(rs)| == |rs|
  {
    assert |multiset(Sort(rs))| == |multiset(rs)|;
  }

  lemma MergeFromStep(merged: seq<Range>, sorted: seq<Range>, i: nat)
    requires merged != [] && i < |sorted|
    ensures MergeFrom(merged, sorted[i..]) == MergeFrom(Absorb(merged, sorted[i]), sorted[i + 1..])
  {
    assert sorted[i..][1..] == sorted[i + 1..];
  }

  lemma MergeFromEnd(merged: seq<Range>, sorted: seq<Range>)
    requires merged != []
    ensures MergeFrom(merged, sorted[|sorted|..]) == merged
  {
  }

  /** One pass of folding ranges into the cumulative point. */
  method PassOnce(point: nat, rs: seq<Range>) returns (cumulative: nat, kept: seq<Range>)
    ensures Acked(cumulative, kept) == Pass(point, [], rs)
  {
    cumulative, kept := point, [];
    var i := 0;
    assert rs[0..] == rs;
    while i < |rs|
      invariant i <= |rs| && Pass(cumulative, kept, rs[i..]) == Pass(point, [], rs)
    {
      var r := rs[i];
      assert rs[i..][1..] == rs[i + 1..];
      if r.end <= cumulative {
      } else if r.start <= cumulative {
        cumulative := r.end;
      } else {
        kept := kept + [r];
      }
      i := i + 1;
    }
  }

  method CompactRanges(point: nat, rs: seq<Range>) returns (cumulative: nat, kept: seq<Range>)
    ensures Acked(cumulative, kept) == Compact(Acked(point, rs))
  {
    cumulative, kept := PassOnce(point, rs);
    var progress := true;
    while progress
      invariant Compact(Acked(point, rs)) == if progress then Settle(Acked(cumulative, kept))
                else Acked(cumulative, kept)
      decreases |kept|, progress
    {
      hide Pass;
      var before := |kept|;
      PassProgress(cumulative, [], kept);
      cumulative, kept := PassOnce(cumulative, kept);
      progress := |kept| < before;
    }
  }

  /** A pass that keeps every range has moved nothing. */
  lemma {:induction false} PassProgress(cumulative: nat, kept: seq<Range>, rest: seq<Range>)
    ensures |Pass(cumulative, kept, rest).ranges| == |kept| + |rest| ==>
              Pass(cumulative, kept, rest) == Acked(cumulative, kept + rest)
    decreases |rest|
  {
    if rest != [] {
      if cumulative < rest[0].end && cumulative < rest[0].start {
        PassProgress(cumulative, kept + [rest[0]], rest[1..]);
        assert kept + [rest[0]] + rest[1..] == kept + rest;
      }
    } else {
      assert kept + rest == kept;
    }
  }
}
