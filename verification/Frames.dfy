/**
 How frames travel in symbols: small ones share a symbol behind length prefixes,
 large ones are cut into fragments that fill symbols of their own.
 */
module Frames {
  import opened LinearSystem

  const SYMBOL_HEADER: nat := 6
  const FRAME_HEADER: nat := 4
  const MAX_FRAGMENTS: nat := 0xFFFF
  const MAX_PAYLOAD: nat := 0xFFFF

  // ---------- numbers on the wire ----------

  /** The low sixteen bits, high byte first. */
  function Put16(n: nat): (b: Vector)
    ensures |b| == 2
  {
    [(n / 256) % 256, n % 256]
  }

  /** The low thirty-two bits, high byte first. */
  function Put32(n: nat): (b: Vector)
    ensures |b| == 4
  {
    [(n / 16777216) % 256, (n / 65536) % 256, (n / 256) % 256, n % 256]
  }

  function Get16(b: Vector, at: nat): nat
    requires at + 2 <= |b|
  {
    b[at] as nat * 256 + b[at + 1] as nat
  }

  function Get32(b: Vector): nat
    requires 4 <= |b|
  {
    b[0] as nat * 16777216 + b[1] as nat * 65536 + b[2] as nat * 256 + b[3] as nat
  }

  lemma Put32Get32(n: nat, rest: Vector)
    requires n < 0x1_0000_0000
    ensures Get32(Put32(n) + rest) == n
  {
    var b, p := Put32(n) + rest, Put32(n);
    assert b[0] == p[0] && b[1] == p[1] && b[2] == p[2] && b[3] == p[3];
    var h := n / 256;
    var g := h / 256;
    Quotients(n);
    assert n == 256 * h + n % 256 && h == 256 * g + h % 256 && g == 256 * (g / 256) + g % 256;
  }

  lemma Quotients(n: nat)
    requires n < 0x1_0000_0000
    ensures n / 65536 == n / 256 / 256 && n / 16777216 == n / 256 / 256 / 256 < 256
  {
  }

  // ---------- symbols ----------

  /** The vector of one symbol: payload length, place in its frame, and the payload. */
  function EncodeSymbol(payload: Vector, index: nat, count: nat): (v: Vector)
    ensures |v| == SYMBOL_HEADER + |payload|
  {
    Put16(|payload|) + Put16(index) + Put16(count) + payload
  }

  datatype Parsed = Malformed | Parsed(payload: Vector, index: nat, count: nat)

  function ParseSymbol(v: Vector): Parsed {
    if |v| < SYMBOL_HEADER then Malformed else
      var length, index, count := Get16(v, 0), Get16(v, 2), Get16(v, 4);
      if count < 1 || index >= count || SYMBOL_HEADER + length > |v| then Malformed
      else Parsed(v[SYMBOL_HEADER..SYMBOL_HEADER + length], index, count)
  }

  /** A symbol survives reconstruction, which may pad it with zeros. */
  lemma SymbolRoundTrip(payload: Vector, index: nat, count: nat, v: Vector)
    requires |payload| <= MAX_PAYLOAD && index < count <= MAX_FRAGMENTS
             && Padded(v, EncodeSymbol(payload, index, count))
    ensures ParseSymbol(v) == Parsed(payload, index, count)
  {
    var e := EncodeSymbol(payload, index, count);
    assert forall i :: 0 <= i < |e| ==> v[i] == v[..|e|][i];
    assert e[0] == Put16(|payload|)[0] && e[1] == Put16(|payload|)[1];
    assert e[2] == Put16(index)[0] && e[3] == Put16(index)[1] && e[4] == Put16(count)[0] && e[5] == Put16(count)[1];
    assert v[SYMBOL_HEADER..SYMBOL_HEADER + |payload|] == payload;
  }

  // ---------- whole frames in one symbol ----------

  function PackFrame(frame: Vector): Vector {
    Put32(|frame|) + frame
  }

  function Pack(frames: seq<Vector>): Vector {
    if frames == [] then [] else Pack(frames[..|frames| - 1]) + PackFrame(frames[|frames| - 1])
  }

  function ParseFrames(payload: Vector): seq<Vector>
    decreases |payload|
  {
    if |payload| < FRAME_HEADER then [] else
      var size, rest := Get32(payload), payload[FRAME_HEADER..];
      if size > |rest| then [] else [rest[..size]] + ParseFrames(rest[size..])
  }

  method ParseFramesInto(payload: Vector, already: seq<Vector>) returns (frames: seq<Vector>)
    ensures frames == already + ParseFrames(payload)
  {
    frames := already;
    var left := payload;
    while |left| >= FRAME_HEADER
      invariant frames + ParseFrames(left) == already + ParseFrames(payload)
      decreases |left|
    {
      var size := Get32(left);
      left := left[FRAME_HEADER..];
      if size > |left| {
        break;
      }
      frames := frames + [left[..size]];
      left := left[size..];
    }
  }

  ghost predicate Carried(frames: seq<Vector>) {
    forall i :: 0 <= i < |frames| ==> |frames[i]| < 0x1_0000_0000
  }

  lemma {:induction false} ParsePrefix(frame: Vector, rest: Vector)
    requires |frame| < 0x1_0000_0000
    ensures ParseFrames(PackFrame(frame) + rest) == [frame] + ParseFrames(rest)
  {
    var all := PackFrame(frame) + rest;
    assert all == Put32(|frame|) + (frame + rest);
    Put32Get32(|frame|, frame + rest);
    assert all[FRAME_HEADER..] == frame + rest;
    assert (frame + rest)[..|frame|] == frame && (frame + rest)[|frame|..] == rest;
  }

  /** Frames packed into one symbol come out of it whole, in order, and nothing else does. */
  lemma {:induction false} PackRoundTrip(frames: seq<Vector>, rest: Vector)
    requires Carried(frames)
    ensures ParseFrames(Pack(frames) + rest) == frames + ParseFrames(rest)
  {
    hide ParseFrames;
    if frames == [] {
      assert Pack(frames) + rest == rest;
    } else {
      var n := |frames| - 1;
      assert Pack(frames) + rest == Pack(frames[..n]) + (PackFrame(frames[n]) + rest);
      PackRoundTrip(frames[..n], PackFrame(frames[n]) + rest);
      ParsePrefix(frames[n], rest);
      assert frames[..n] + ([frames[n]] + ParseFrames(rest)) == frames + ParseFrames(rest);
    }
  }

  /** Everything parsed out of a payload is shorter than the payload by at least its prefix. */
  lemma {:induction false} ParsedAreShorter(payload: Vector, i: nat)
    requires i < |ParseFrames(payload)|
    ensures |ParseFrames(payload)[i]| + FRAME_HEADER <= |payload|
    decreases |payload|
  {
    var size, rest := Get32(payload), payload[FRAME_HEADER..];
    if i > 0 {
      ParsedAreShorter(rest[size..], i - 1);
    }
  }

  // ---------- one frame in several symbols ----------

  function FragmentCount(length: nat, limit: nat): nat
    requires limit > 0
  {
    (length + limit - 1) / limit
  }

  function Fragment(frame: Vector, limit: nat, i: nat): Vector
    requires i * limit <= |frame|
  {
    frame[i * limit..if (i + 1) * limit < |frame| then (i + 1) * limit else |frame|]
  }

  lemma CountBounds(length: nat, limit: nat)
    requires limit > 0
    ensures var c := FragmentCount(length, limit); length <= c * limit && (length > 0 ==> (c - 1) * limit < length)
  {
    var c, r := (length + limit - 1) / limit, (length + limit - 1) % limit;
    assert length + limit - 1 == limit * c + r;
    assert limit * c == c * limit && (c - 1) * limit == c * limit - limit;
  }

  lemma Monotone(a: nat, b: nat, limit: nat)
    requires a <= b
    ensures a * limit <= b * limit
  {
  }

  /** Every fragment starts inside the frame and carries something. */
  lemma FragmentPlace(length: nat, limit: nat, i: nat)
    requires limit > 0 && i < FragmentCount(length, limit)
    ensures i * limit < length
  {
    CountBounds(length, limit);
    NoFragments(limit);
    Monotone(i, FragmentCount(length, limit) - 1, limit);
  }

  lemma NoFragments(limit: nat)
    requires limit > 0
    ensures FragmentCount(0, limit) == 0
  {
  }

  function FragmentsUpTo(frame: Vector, limit: nat, n: nat): seq<Vector>
    requires limit > 0 && n <= FragmentCount(|frame|, limit)
  {
    if n == 0 then [] else
      FragmentPlace(|frame|, limit, n - 1);
      FragmentsUpTo(frame, limit, n - 1) + [Fragment(frame, limit, n - 1)]
  }

  function Concat(parts: seq<Vector>): Vector {
    if parts == [] then [] else Concat(parts[..|parts| - 1]) + parts[|parts| - 1]
  }

  /** The part is the frame's i'th fragment. */
  ghost predicate IsFragment(frame: Vector, limit: nat, i: nat, part: Vector) {
    i * limit < |frame| && part == Fragment(frame, limit, i)
  }

  lemma {:induction false} FragmentsAre(frame: Vector, limit: nat, n: nat)
    requires limit > 0 && n <= FragmentCount(|frame|, limit)
    ensures |FragmentsUpTo(frame, limit, n)| == n
    ensures forall i: nat :: i < n ==> IsFragment(frame, limit, i, FragmentsUpTo(frame, limit, n)[i])
  {
    hide FragmentCount, Fragment;
    if n > 0 {
      FragmentsAre(frame, limit, n - 1);
      FragmentPlace(|frame|, limit, n - 1);
    }
  }

  lemma FragmentFull(frame: Vector, limit: nat, i: nat, part: Vector)
    requires limit > 0 && IsFragment(frame, limit, i, part)
    ensures part != []
  {
    assert (i + 1) * limit == i * limit + limit;
  }

  /** Where the first n fragments end. */
  function Cut(length: nat, limit: nat, n: nat): (c: nat)
    ensures c <= length
  {
    if n * limit < length then n * limit else length
  }

  lemma ConcatSnoc(parts: seq<Vector>, last: Vector)
    ensures Concat(parts + [last]) == Concat(parts) + last
  {
    assert (parts + [last])[..|parts|] == parts;
  }

  lemma Splice(frame: Vector, lo: nat, hi: nat)
    requires lo <= hi <= |frame|
    ensures frame[..lo] + frame[lo..hi] == frame[..hi]
  {
  }

  lemma CutStep(length: nat, limit: nat, n: nat)
    requires n > 0 && (n - 1) * limit < length
    ensures Cut(length, limit, n - 1) == (n - 1) * limit <= Cut(length, limit, n)
    ensures Cut(length, limit, n) == if (n - 1 + 1) * limit < length then (n - 1 + 1) * limit else length
  {
    assert n * limit == (n - 1) * limit + limit;
  }

  /** The first n fragments are the frame's first n times limit bytes. */
  lemma {:induction false} FragmentsJoin(frame: Vector, limit: nat, n: nat)
    requires limit > 0 && n <= FragmentCount(|frame|, limit)
    ensures Concat(FragmentsUpTo(frame, limit, n)) == frame[..Cut(|frame|, limit, n)]
  {
    hide FragmentCount, Concat, Cut;
    if n > 0 {
      FragmentsJoin(frame, limit, n - 1);
      FragmentPlace(|frame|, limit, n - 1);
      CutStep(|frame|, limit, n);
      ConcatSnoc(FragmentsUpTo(frame, limit, n - 1), Fragment(frame, limit, n - 1));
      Splice(frame, (n - 1) * limit, Cut(|frame|, limit, n));
    } else {
      NothingJoined(frame, limit);
    }
  }

  lemma NothingJoined(frame: Vector, limit: nat)
    ensures Concat([]) == [] && Cut(|frame|, limit, 0) == 0
  {
  }

  /** A frame cut into fragments is the join of all of them. */
  lemma AllFragmentsJoin(frame: Vector, limit: nat)
    requires limit > 0
    ensures Concat(FragmentsUpTo(frame, limit, FragmentCount(|frame|, limit))) == frame
  {
    hide FragmentsUpTo, Concat, FragmentCount;
    CountBounds(|frame|, limit);
    FragmentsJoin(frame, limit, FragmentCount(|frame|, limit));
  }

  /** A frame too long to be packed but not longer than a symbol's payload: its one fragment looks packed. */
  predicate Misfit(length: nat, limit: nat) {
    length <= limit && FRAME_HEADER + length > limit
  }

  lemma ParseNothing()
    ensures ParseFrames([]) == []
  {
  }

  lemma OneFragment(length: nat, limit: nat)
    requires 0 < length <= limit
    ensures FragmentCount(length, limit) == 1
  {
    CountBounds(length, limit);
    var c := FragmentCount(length, limit);
    if c >= 2 {
      Monotone(1, c - 1, limit);
    }
    assert c == 0 ==> c * limit == 0;
  }

  lemma ManyFragments(length: nat, limit: nat)
    requires length > limit > 0
    ensures FragmentCount(length, limit) >= 2
  {
    CountBounds(length, limit);
    var c := FragmentCount(length, limit);
    if c <= 1 {
      Monotone(c, 1, limit);
    }
  }
}
