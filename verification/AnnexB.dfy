/** Splitting an H.264 byte stream into NAL units and keeping the parameter sets
    (surface/avc_gpu_common.cpp; Annex B of ITU-T H.264, NAL unit types 7 and 8 of Table 7-1). */
module AnnexB {

  type Byte = n: nat | n < 256
  type Bytes = seq<Byte>

  const SIZE_LIMIT: nat := 0x1_0000_0000

  /** Three bytes 0 0 1, with at least one byte after them. */
  predicate IsShortCode(data: Bytes, i: nat) {
    i + 3 < |data| && data[i] == 0 && data[i + 1] == 0 && data[i + 2] == 1
  }

  predicate IsLongCode(data: Bytes, i: nat) {
    i + 4 < |data| && data[i] == 0 && data[i + 1] == 0 && data[i + 2] == 0 && data[i + 3] == 1
  }

  /** The length of the start code at i, or 0. */
  function PrefixAt(data: Bytes, i: nat): nat {
    if IsShortCode(data, i) then 3 else if IsLongCode(data, i) then 4 else 0
  }

  /** The first start code at or after `from`, or the end of the data. */
  function NextStart(data: Bytes, from: nat): (r: nat)
    requires from <= |data|
    ensures from <= r <= |data|
    ensures forall i | from <= i < r :: PrefixAt(data, i) == 0
    ensures r < |data| ==> PrefixAt(data, r) != 0
    decreases |data| - from
  {
    if from == |data| || PrefixAt(data, from) != 0 then from else NextStart(data, from + 1)
  }

  lemma NextStartIs(data: Bytes, from: nat, r: nat)
    requires from <= r <= |data|
    requires forall i | from <= i < r :: PrefixAt(data, i) == 0
    requires r < |data| ==> PrefixAt(data, r) != 0
    ensures NextStart(data, from) == r
  {
  }

  datatype Unit = Unit(start: nat, prefix: nat, end: nat)

  predicate IsParameterType(header: Byte) { header % 32 == 7 || header % 32 == 8 }

  /** A start code, a header, and no start code after the header up to the end. */
  predicate UnitOf(data: Bytes, u: Unit) {
    && u.start + u.prefix < u.end <= |data|
    && u.prefix == PrefixAt(data, u.start) != 0
    && u.end == NextStart(data, u.start + u.prefix + 1)
  }

  /** The unit at a start code. */
  function FirstUnit(data: Bytes, start: nat): (u: Unit)
    requires start < |data| && PrefixAt(data, start) != 0
    ensures UnitOf(data, u) && u.start == start
  {
    Unit(start, PrefixAt(data, start), NextStart(data, start + PrefixAt(data, start) + 1))
  }

  /** The units from the start code at `start` on: each runs to the next start code found after its header. */
  function Units(data: Bytes, start: nat): (r: seq<Unit>)
    requires start < |data| && PrefixAt(data, start) != 0
    ensures |r| > 0 && r[0] == FirstUnit(data, start) && r[|r| - 1].end == |data|
    ensures forall i | 0 <= i < |r| :: UnitOf(data, r[i])
    ensures forall i | 0 <= i < |r| - 1 :: r[i].end == r[i + 1].start
    decreases |data| - start
  {
    var u := FirstUnit(data, start);
    [u] + (if u.end == |data| then [] else Units(data, u.end))
  }

  function Slice(data: Bytes, u: Unit): Bytes
    requires UnitOf(data, u)
  {
    data[u.start..u.end]
  }

  function Header(data: Bytes, u: Unit): Byte
    requires UnitOf(data, u)
  {
    data[u.start + u.prefix]
  }

  function Concat(parts: seq<Bytes>): Bytes {
    if parts == [] then [] else parts[0] + Concat(parts[1..])
  }

  predicate AllUnits(data: Bytes, units: seq<Unit>) { forall i | 0 <= i < |units| :: UnitOf(data, units[i]) }

  function Slices(data: Bytes, units: seq<Unit>): seq<Bytes>
    requires AllUnits(data, units)
  {
    if units == [] then [] else [Slice(data, units[0])] + Slices(data, units[1..])
  }

  /** The slices of the units that carry a parameter set, in order. */
  function ParameterSlices(data: Bytes, units: seq<Unit>): seq<Bytes>
    requires AllUnits(data, units)
  {
    if units == [] then []
    else if IsParameterType(Header(data, units[0])) then [Slice(data, units[0])] + ParameterSlices(data, units[1..])
    else ParameterSlices(data, units[1..])
  }

  function ReadBe32(data: Bytes, i: nat): nat
    requires i + 4 <= |data|
  {
    (data[i] as int) * 0x100_0000 + (data[i + 1] as int) * 0x1_0000 + (data[i + 2] as int) * 0x100
      + (data[i + 3] as int)
  }

  /** The branch without start codes: units behind 4-byte lengths; a bad length ends the walk and keeps what
      was collected. */
  function LengthPrefixed(data: Bytes, offset: nat): Bytes
    requires offset <= |data|
    decreases |data| - offset
  {
    if offset + 4 >= |data| then []
    else
      var size := ReadBe32(data, offset);
      if size == 0 || size > |data| - offset - 4 then []
      else (if IsParameterType(data[offset + 4]) then data[offset..offset + 4 + size] else [])
           + LengthPrefixed(data, offset + 4 + size)
  }

  function KeptOf(data: Bytes, u: Unit): Bytes
    requires UnitOf(data, u)
  {
    if IsParameterType(Header(data, u)) then Slice(data, u) else []
  }

  /** What is kept from the start code at `start` on. */
  function KeptFrom(data: Bytes, start: nat): Bytes
    requires start < |data| && PrefixAt(data, start) != 0
    decreases |data| - start
  {
    var u := FirstUnit(data, start);
    KeptOf(data, u) + if u.end == |data| then [] else KeptFrom(data, u.end)
  }

  lemma ConcatOne(head: Bytes, tail: seq<Bytes>)
    ensures Concat([head] + tail) == head + Concat(tail)
  {
    assert ([head] + tail)[1..] == tail;
  }

  lemma UnitsHead(data: Bytes, start: nat)
    requires start < |data| && PrefixAt(data, start) != 0
    ensures var u := Units(data, start)[0];
            && UnitOf(data, u) && u.start == start
            && Units(data, start)[1..] == if u.end == |data| then [] else Units(data, u.end)
  {
  }

  lemma SlicesHead(data: Bytes, units: seq<Unit>)
    requires AllUnits(data, units) && units != []
    ensures Concat(ParameterSlices(data, units)) == KeptOf(data, units[0]) + Concat(ParameterSlices(data, units[1..]))
  {
    ConcatOne(Slice(data, units[0]), ParameterSlices(data, units[1..]));
  }

  lemma {:induction false} KeptIsConcatOfSlices(data: Bytes, start: nat)
    requires start < |data| && PrefixAt(data, start) != 0
    ensures Concat(ParameterSlices(data, Units(data, start))) == KeptFrom(data, start)
    decreases |data| - start
  {
    var units := Units(data, start);
    UnitsHead(data, start);
    SlicesHead(data, units);
    if units[0].end < |data| {
      KeptIsConcatOfSlices(data, units[0].end);
    }
  }

  predicate IsAnnexB(data: Bytes) { NextStart(data, 0) < |data| }

  function ParameterSets(data: Bytes): Bytes {
    if |data| < 5 then []
    else if IsAnnexB(data) then Concat(ParameterSlices(data, Units(data, NextStart(data, 0))))
    else LengthPrefixed(data, 0)
  }

  // ---- The loops ----

  method FindAnnexBStartCode(data: Bytes, from: nat) returns (found: bool, start: nat, prefix: nat)
    requires |data| < SIZE_LIMIT && (from < |data| ==> from + 3 < SIZE_LIMIT)
    ensures found == (from < |data| && NextStart(data, from) < |data|)
    ensures found ==> start == NextStart(data, from) && prefix == PrefixAt(data, start)
  {
    start, prefix := 0, 0;
    if |data| < 4 || from >= |data| {
      if from < |data| {
        NextStartIs(data, from, |data|);
      }
      return false, start, prefix;
    }
    var i := from;
    while i + 3 < |data|
      invariant from <= i <= |data|
      invariant forall k | from <= k < i :: PrefixAt(data, k) == 0
    {
      if data[i] == 0 && data[i + 1] == 0 && data[i + 2] == 1 {
        NextStartIs(data, from, i);
        return true, i, 3;
      } else if i + 4 < |data| && data[i] == 0 && data[i + 1] == 0 && data[i + 2] == 0 && data[i + 3] == 1 {
        NextStartIs(data, from, i);
        return true, i, 4;
      }
      i := i + 1;
    }
    NextStartIs(data, from, |data|);
    return false, start, prefix;
  }

  lemma NextStartAtEnd(data: Bytes)
    ensures NextStart(data, |data|) == |data|
  {
  }

  /** One round of the loop below: the unit at `start`, and where the next one is. A start code found always has
      a header byte after it, so the source's guard for a header beyond the end never fires. */
  method NextUnit(data: Bytes, start: nat, prefix: nat) returns (kept: Bytes, nextStart: nat, nextPrefix: nat)
    requires |data| + 2 < SIZE_LIMIT && start < |data| && prefix == PrefixAt(data, start) != 0
    ensures start < nextStart <= |data|
    ensures nextStart < |data| ==> nextPrefix == PrefixAt(data, nextStart) != 0
    ensures KeptFrom(data, start) == kept + if nextStart == |data| then [] else KeptFrom(data, nextStart)
  {
    var nalOffset := start + prefix;
    var found, s, p := FindAnnexBStartCode(data, nalOffset + 1);
    NextStartAtEnd(data);
    nextStart, nextPrefix := if found then s else |data|, p;
    assert FirstUnit(data, start) == Unit(start, prefix, nextStart);
    kept := if data[nalOffset] % 32 == 7 || data[nalOffset] % 32 == 8 then data[start..nextStart] else [];
  }

  lemma AppendAssociates(a: Bytes, b: Bytes, c: Bytes)
    ensures (a + b) + c == a + (b + c)
  {
  }

  /** The loop of the start-code branch. */
  method CollectFromStartCodes(data: Bytes, start: nat, prefix: nat) returns (parameterSets: Bytes)
    requires |data| + 2 < SIZE_LIMIT && start < |data| && prefix == PrefixAt(data, start) != 0
    ensures parameterSets == KeptFrom(data, start)
  {
    parameterSets := [];
    var currentStart, currentPrefix := start, prefix;
    while currentStart < |data|
      invariant currentStart <= |data|
      invariant currentStart < |data| ==> currentPrefix == PrefixAt(data, currentStart) != 0
      invariant KeptFrom(data, start)
             == parameterSets + if currentStart == |data| then [] else KeptFrom(data, currentStart)
      decreases |data| - currentStart
    {
      var kept, nextStart, nextPrefix := NextUnit(data, currentStart, currentPrefix);
      AppendAssociates(parameterSets, kept, if nextStart == |data| then [] else KeptFrom(data, nextStart));
      parameterSets := parameterSets + kept;
      currentStart, currentPrefix := nextStart, nextPrefix;
    }
  }

  method CollectLengthPrefixed(data: Bytes) returns (parameterSets: Bytes)
    requires |data| + 4 < SIZE_LIMIT
    ensures parameterSets == LengthPrefixed(data, 0)
  {
    parameterSets := [];
    var offset := 0;
    while offset + 4 < |data|
      invariant offset <= |data|
      invariant LengthPrefixed(data, 0) == parameterSets + LengthPrefixed(data, offset)
      decreases |data| - offset
    {
      var nalSize := ReadBe32(data, offset);
      if nalSize == 0 || nalSize > |data| - offset - 4 {
        break;
      }
      var next := offset + 4 + nalSize;
      var kept := if data[offset + 4] % 32 == 7 || data[offset + 4] % 32 == 8 then data[offset..next] else [];
      AppendAssociates(parameterSets, kept, LengthPrefixed(data, next));
      parameterSets := parameterSets + kept;
      offset := next;
    }
  }

  /** The sizes are those at which no 32-bit index of the two walks wraps around. */
  method ExtractH264ParameterSets(data: Bytes) returns (ok: bool, parameterSets: Bytes)
    requires |data| + (if IsAnnexB(data) then 2 else 4) < SIZE_LIMIT
    ensures parameterSets == ParameterSets(data) && ok == (parameterSets != [])
  {
    if |data| < 5 {
      return false, [];
    }
    var found, start, prefix := FindAnnexBStartCode(data, 0);
    if found {
      KeptIsConcatOfSlices(data, start);
      parameterSets := CollectFromStartCodes(data, start, prefix);
    } else {
      parameterSets := CollectLengthPrefixed(data);
    }
    ok := parameterSets != [];
  }

  // ---- The units partition the data ----

  lemma SplitSuffix(data: Bytes, start: nat, next: nat)
    requires start <= next <= |data|
    ensures data[start..] == data[start..next] + data[next..]
  {
  }

  lemma {:induction false} UnitsPartition(data: Bytes, start: nat)
    requires start < |data| && PrefixAt(data, start) != 0
    ensures Concat(Slices(data, Units(data, start))) == data[start..]
    decreases |data| - start
  {
    var units := Units(data, start);
    var next, tail := units[0].end, units[1..];
    UnitsHead(data, start);
    if next < |data| {
      UnitsPartition(data, next);
    }
    ConcatOne(Slice(data, units[0]), Slices(data, tail));
    SplitSuffix(data, start, next);
  }

  /** The units found, concatenated, are the data from its first start code on; nothing before it contains
      a start code, and no unit contains one after its header. */
  lemma AnnexBPartition(data: Bytes)
    requires IsAnnexB(data)
    ensures var first := NextStart(data, 0);
            && Concat(Slices(data, Units(data, first))) == data[first..]
            && (forall i | 0 <= i < first :: PrefixAt(data, i) == 0)
            && (forall u, i: nat | u in Units(data, first) && u.start + u.prefix < i < u.end :: PrefixAt(data, i) == 0)
  {
    var first := NextStart(data, 0);
    UnitsPartition(data, first);
    forall u, i: nat | u in Units(data, first) && u.start + u.prefix < i < u.end
      ensures PrefixAt(data, i) == 0
    {
      assert UnitOf(data, u);
    }
  }

  // ---- Extraction is idempotent ----

  /** The bytes 0 0 1 at i, whatever follows. */
  predicate HasPattern(s: Bytes, i: nat) { i + 3 <= |s| && s[i] == 0 && s[i + 1] == 0 && s[i + 2] == 1 }

  function OwnPrefix(s: Bytes): nat { if |s| >= 3 && s[2] == 1 then 3 else 4 }

  /** A parameter-set unit on its own: start code, header of type 7 or 8, and the pattern 0 0 1 nowhere after
      the header, except possibly as its very last bytes when it ended the data. */
  predicate ParameterUnit(s: Bytes, endsData: bool) {
    var p := OwnPrefix(s);
    && |s| > p && s[0] == 0 && s[1] == 0 && s[p - 1] == 1 && (p == 4 ==> s[2] == 0)
    && (s[p] % 32 == 7 || s[p] % 32 == 8)
    && forall i | p < i < |s| :: HasPattern(s, i) ==> endsData && i + 3 == |s|
  }

  predicate ParameterUnits(parts: seq<Bytes>) {
    forall i | 0 <= i < |parts| :: ParameterUnit(parts[i], i == |parts| - 1)
  }

  lemma SliceIsParameterUnit(data: Bytes, u: Unit)
    requires UnitOf(data, u) && IsParameterType(Header(data, u))
    ensures ParameterUnit(Slice(data, u), u.end == |data|)
  {
    var s := Slice(data, u);
    assert OwnPrefix(s) == u.prefix;
    forall i | u.prefix < i < |s| && HasPattern(s, i) ensures u.end == |data| && i + 3 == |s| {
      assert PrefixAt(data, u.start + i) == 0;
    }
  }

  lemma {:induction false} SlicesAreParameterUnits(data: Bytes, units: seq<Unit>)
    requires AllUnits(data, units) && forall i | 0 <= i < |units| - 1 :: units[i].end < |data|
    ensures ParameterUnits(ParameterSlices(data, units))
  {
    if units != [] {
      var u, rest := units[0], units[1..];
      SlicesAreParameterUnits(data, rest);
      if IsParameterType(Header(data, u)) {
        SliceIsParameterUnit(data, u);
        var parts := ParameterSlices(data, units);
        forall i | 0 <= i < |parts| ensures ParameterUnit(parts[i], i == |parts| - 1) {
          if i > 0 {
            assert parts[i] == ParameterSlices(data, rest)[i - 1];
          } else if u.end == |data| {
            assert rest == [];
          } else {
            assert ParameterUnit(parts[0], false);
          }
        }
      }
    }
  }

  /** Every unit found from `start` on carries a parameter set. */
  predicate OnlyParameterUnits(data: Bytes, start: nat)
    requires start < |data| && PrefixAt(data, start) != 0
    decreases |data| - start
  {
    var u := FirstUnit(data, start);
    IsParameterType(Header(data, u)) && (u.end < |data| ==> OnlyParameterUnits(data, u.end))
  }

  lemma {:induction false} OnlyParameterUnitsKeepsAll(data: Bytes, start: nat)
    requires start < |data| && PrefixAt(data, start) != 0 && OnlyParameterUnits(data, start)
    ensures KeptFrom(data, start) == data[start..]
    decreases |data| - start
  {
    var next := FirstUnit(data, start).end;
    if next < |data| {
      OnlyParameterUnitsKeepsAll(data, next);
    }
    SplitSuffix(data, start, next);
  }

  lemma ConcatStarts(parts: seq<Bytes>, i: nat)
    requires parts != [] && i < |parts[0]|
    ensures |Concat(parts)| >= |parts[0]| && Concat(parts)[i] == parts[0][i]
  {
  }

  /** Where the unit after `s` is found when the two are joined: at the joint, or one byte before it when a
      trailing zero of `s` turns the next short start code into a long one. */
  function Joint(s: Bytes, rest: seq<Bytes>): nat
    requires ParameterUnit(s, rest == [])
  {
    if rest != [] && s[|s| - 1] == 0 && OwnPrefix(rest[0]) == 3 then |s| - 1 else |s|
  }

  /** Inside a unit, past its header, joining introduces no start code before the joint. */
  lemma NoCodeBeforeJoint(s: Bytes, rest: seq<Bytes>, i: nat)
    requires ParameterUnit(s, rest == []) && ParameterUnits(rest) && OwnPrefix(s) < i < Joint(s, rest)
    ensures PrefixAt(s + Concat(rest), i) == 0
  {
    var joined := s + Concat(rest);
    var n := |s|;
    if rest == [] {
      assert joined == s;
      if PrefixAt(joined, i) == 3 { assert HasPattern(s, i); }
      if PrefixAt(joined, i) == 4 { assert HasPattern(s, i + 1); }
    } else {
      var next := rest[0];
      assert ParameterUnit(rest[0], 0 == |rest| - 1);
      ConcatStarts(rest, 0);
      ConcatStarts(rest, 1);
      ConcatStarts(rest, 2);
      assert joined[n] == 0 && joined[n + 1] == 0;
      assert joined[n + 2] == next[2];
      if PrefixAt(joined, i) == 3 {
        if i + 3 <= n { assert HasPattern(s, i); }
      }
      if PrefixAt(joined, i) == 4 {
        if i + 4 <= n { assert HasPattern(s, i + 1); }
      }
    }
  }

  lemma JoinedAt(s: Bytes, rest: seq<Bytes>, i: nat)
    requires rest != [] && i < |rest[0]|
    ensures |s| + i < |s + Concat(rest)| && (s + Concat(rest))[|s| + i] == rest[0][i]
  {
    ConcatStarts(rest, i);
  }

  /** The bytes of a joined sequence around a joint. */
  lemma BytesAtJoint(s: Bytes, rest: seq<Bytes>)
    requires s != [] && rest != [] && |rest[0]| > OwnPrefix(rest[0])
    ensures var j, n, p := s + Concat(rest), |s|, OwnPrefix(rest[0]);
            && n + p < |j| && j[n - 1] == s[n - 1] && j[n] == rest[0][0] && j[n + 1] == rest[0][1]
            && j[n + 2] == rest[0][2] && j[n + p] == rest[0][p] && j[n + p - 1] == rest[0][p - 1]
  {
    JoinedAt(s, rest, 0);
    JoinedAt(s, rest, 1);
    JoinedAt(s, rest, 2);
    JoinedAt(s, rest, OwnPrefix(rest[0]) - 1);
    JoinedAt(s, rest, OwnPrefix(rest[0]));
  }

  lemma CodeAtJoint(s: Bytes, rest: seq<Bytes>)
    requires ParameterUnit(s, rest == []) && rest != [] && ParameterUnits(rest)
    ensures var at := Joint(s, rest);
            var joined := s + Concat(rest);
            && OwnPrefix(s) < at
            && PrefixAt(joined, at) == OwnPrefix(rest[0]) + (|s| - at)
            && at + PrefixAt(joined, at) == |s| + OwnPrefix(rest[0]) < |joined|
            && joined[|s| + OwnPrefix(rest[0])] == rest[0][OwnPrefix(rest[0])]
  {
    assert ParameterUnit(rest[0], 0 == |rest| - 1);
    BytesAtJoint(s, rest);
    assert s[OwnPrefix(s)] != 0;
  }

  lemma PrefixInSuffix(data: Bytes, start: nat, i: nat)
    requires start <= |data|
    ensures PrefixAt(data[start..], i) == PrefixAt(data, start + i)
  {
  }

  /** The next start code after the header of the first of the joined parts. */
  lemma NextStartInJoined(data: Bytes, base: nat, s: Bytes, rest: seq<Bytes>)
    requires base <= |data| && data[base..] == s + Concat(rest)
    requires ParameterUnit(s, rest == []) && ParameterUnits(rest)
    ensures NextStart(data, base + OwnPrefix(s) + 1) == base + Joint(s, rest)
    ensures rest == [] ==> base + Joint(s, rest) == |data|
  {
    var p, at := OwnPrefix(s), Joint(s, rest);
    assert s[p] != 0;
    assert p < at;
    forall i | base + p + 1 <= i < base + at ensures PrefixAt(data, i) == 0 {
      NoCodeBeforeJoint(s, rest, i - base);
      PrefixInSuffix(data, base, i - base);
    }
    if rest == [] {
      assert |data[base..]| == |s|;
    } else {
      CodeAtJoint(s, rest);
      PrefixInSuffix(data, base, at);
    }
    NextStartIs(data, base + p + 1, base + at);
  }

  function StrayZero(stray: bool): Bytes { if stray then [0] else [] }

  lemma SuffixAtJoint(data: Bytes, base: nat, s: Bytes, rest: seq<Bytes>)
    requires base <= |data| && data[base..] == s + Concat(rest)
    requires ParameterUnit(s, rest == []) && rest != []
    ensures base + Joint(s, rest) <= |data|
    ensures data[base + Joint(s, rest)..] == StrayZero(Joint(s, rest) == |s| - 1) + Concat(rest)
  {
    var at := Joint(s, rest);
    assert |data[base..]| == |s| + |Concat(rest)|;
    assert data[base + at..] == data[base..][at..];
    assert (s + Concat(rest))[at..] == s[at..] + Concat(rest);
    if at == |s| - 1 { assert s[at..] == [s[at]]; }
  }

  lemma TailIsParameterUnits(parts: seq<Bytes>)
    requires parts != [] && ParameterUnits(parts)
    ensures ParameterUnit(parts[0], parts[1..] == []) && ParameterUnits(parts[1..])
  {
    var rest := parts[1..];
    assert ParameterUnit(parts[0], 0 == |parts| - 1);
    forall i | 0 <= i < |rest| ensures ParameterUnit(rest[i], i == |rest| - 1) { assert rest[i] == parts[i + 1]; }
  }

  /** Joined parameter units are found as parameter units only, even where a joint moved by one byte. The
      data from `start` is a possible stray zero and then the parts. */
  lemma {:induction false} JoinedUnitsAreParameterUnits(data: Bytes, start: nat, stray: bool, parts: seq<Bytes>)
    requires parts != [] && ParameterUnits(parts) && start < |data|
    requires stray ==> OwnPrefix(parts[0]) == 3
    requires data[start..] == StrayZero(stray) + Concat(parts)
    ensures PrefixAt(data, start) != 0 && OnlyParameterUnits(data, start)
    decreases |parts|
  {
    var s, rest := parts[0], parts[1..];
    TailIsParameterUnits(parts);
    var next, moved := FirstOfJoined(data, start, stray, s, rest);
    if next < |data| {
      JoinedUnitsAreParameterUnits(data, next, moved, rest);
    }
    OneMoreParameterUnit(data, start, next);
  }

  lemma OneMoreParameterUnit(data: Bytes, start: nat, next: nat)
    requires start < |data| && PrefixAt(data, start) != 0 && IsParameterType(data[start + PrefixAt(data, start)])
    requires next == NextStart(data, start + PrefixAt(data, start) + 1)
    requires next < |data| ==> PrefixAt(data, next) != 0 && OnlyParameterUnits(data, next)
    ensures OnlyParameterUnits(data, start)
  {
  }

  /** The first unit found in the joined parts, and what is left after it. */
  lemma FirstOfJoined(data: Bytes, start: nat, stray: bool, s: Bytes, rest: seq<Bytes>) returns (next: nat, moved: bool)
    requires start < |data| && ParameterUnit(s, rest == []) && ParameterUnits(rest) && (stray ==> OwnPrefix(s) == 3)
    requires data[start..] == StrayZero(stray) + (s + Concat(rest))
    ensures PrefixAt(data, start) != 0 && IsParameterType(data[start + PrefixAt(data, start)])
    ensures next == NextStart(data, start + PrefixAt(data, start) + 1)
    ensures next < |data| ==> rest != [] && data[next..] == StrayZero(moved) + Concat(rest)
    ensures next < |data| && moved ==> OwnPrefix(rest[0]) == 3
  {
    HeaderOfFirst(data, start, stray, s, rest);
    EndOfFirst(data, start, stray, s, rest);
    next, moved := start + |StrayZero(stray)| + Joint(s, rest), Joint(s, rest) == |s| - 1;
    if rest != [] {
      AfterFirst(data, start, stray, s, rest);
    }
  }

  /** The first unit has the first part's header, ... */
  lemma HeaderOfFirst(data: Bytes, start: nat, stray: bool, s: Bytes, rest: seq<Bytes>)
    requires start < |data| && ParameterUnit(s, rest == []) && (stray ==> OwnPrefix(s) == 3)
    requires data[start..] == StrayZero(stray) + (s + Concat(rest))
    ensures PrefixAt(data, start) != 0
    ensures start + PrefixAt(data, start) == start + |StrayZero(stray)| + OwnPrefix(s) < |data|
    ensures IsParameterType(data[start + PrefixAt(data, start)])
  {
    StartOfParts(data, start, stray, s, s + Concat(rest), rest == []);
  }

  /** ... ends at the joint, ... */
  lemma EndOfFirst(data: Bytes, start: nat, stray: bool, s: Bytes, rest: seq<Bytes>)
    requires start < |data| && ParameterUnit(s, rest == []) && ParameterUnits(rest)
    requires data[start..] == StrayZero(stray) + (s + Concat(rest))
    ensures var base := start + |StrayZero(stray)|;
            && base + OwnPrefix(s) + 1 <= |data|
            && NextStart(data, base + OwnPrefix(s) + 1) == base + Joint(s, rest)
            && (rest == [] ==> base + Joint(s, rest) == |data|)
  {
    DropPrefix(data, start, StrayZero(stray), s + Concat(rest));
    NextStartInJoined(data, start + |StrayZero(stray)|, s, rest);
  }

  /** ... and leaves the other parts, with the zero that ended the first where the joint moved. */
  lemma AfterFirst(data: Bytes, start: nat, stray: bool, s: Bytes, rest: seq<Bytes>)
    requires start < |data| && ParameterUnit(s, rest == []) && ParameterUnits(rest) && rest != []
    requires data[start..] == StrayZero(stray) + (s + Concat(rest))
    ensures var next := start + |StrayZero(stray)| + Joint(s, rest);
            var moved := Joint(s, rest) == |s| - 1;
            && next < |data| && data[next..] == StrayZero(moved) + Concat(rest)
            && (moved ==> OwnPrefix(rest[0]) == 3)
  {
    var base := start + |StrayZero(stray)|;
    DropPrefix(data, start, StrayZero(stray), s + Concat(rest));
    SuffixAtJoint(data, base, s, rest);
    assert ParameterUnit(rest[0], 0 == |rest| - 1);
    ConcatStarts(rest, 0);
  }

  lemma DropPrefix(data: Bytes, start: nat, prefix: Bytes, tail: Bytes)
    requires start <= |data| && data[start..] == prefix + tail
    ensures start + |prefix| <= |data| && data[start + |prefix|..] == tail
  {
    assert |data[start..]| == |prefix| + |tail|;
    assert data[start + |prefix|..] == data[start..][|prefix|..];
  }

  /** The first start code of a joined sequence ends right before the first header. */
  lemma StartOfParts(data: Bytes, start: nat, stray: bool, s: Bytes, joined: Bytes, last: bool)
    requires start < |data| && |s| <= |joined| && s == joined[..|s|] && ParameterUnit(s, last)
    requires stray ==> OwnPrefix(s) == 3
    requires data[start..] == StrayZero(stray) + joined
    ensures var base := start + |StrayZero(stray)|;
            && PrefixAt(data, start) != 0
            && start + PrefixAt(data, start) == base + OwnPrefix(s) < |data|
            && data[base + OwnPrefix(s)] == s[OwnPrefix(s)]
  {
    var all := data[start..];
    var p := OwnPrefix(s);
    PrefixInSuffix(data, start, 0);
    assert joined[0] == s[0] && joined[1] == s[1] && joined[2] == s[2] && joined[p] == s[p];
    if stray {
      assert all[1] == s[0] && all[2] == s[1] && all[3] == s[2] && all[1 + p] == s[p];
    } else {
      assert all[0] == s[0] && all[1] == s[1] && all[2] == s[2] && all[p] == s[p] && all[p - 1] == s[p - 1];
    }
  }

  /** The slices kept from a stream, in the form the second extraction meets them. */
  lemma KeptSlices(data: Bytes)
    requires |data| >= 5 && IsAnnexB(data)
    ensures ParameterUnits(ParameterSlices(data, Units(data, NextStart(data, 0))))
  {
    var units := Units(data, NextStart(data, 0));
    forall i | 0 <= i < |units| - 1 ensures units[i].end < |data| {
      assert UnitOf(data, units[i + 1]);
    }
    SlicesAreParameterUnits(data, units);
  }

  lemma JoinedIsKept(sets: Bytes, parts: seq<Bytes>)
    requires parts != [] && ParameterUnits(parts) && sets == Concat(parts) && |sets| >= 5
    ensures ParameterSets(sets) == sets
  {
    assert sets[0..] == StrayZero(false) + Concat(parts);
    JoinedUnitsAreParameterUnits(sets, 0, false, parts);
    NextStartIs(sets, 0, 0);
    OnlyParameterUnitsKeepsAll(sets, 0);
    KeptIsConcatOfSlices(sets, 0);
  }

  /** A unit whose header says type 7 or 8. */
  predicate CarriesParameters(data: Bytes, u: Unit) {
    UnitOf(data, u) && (data[u.start + u.prefix] % 32 == 7 || data[u.start + u.prefix] % 32 == 8)
  }

  /** A short start code and a header of type 7 or 8, and nothing else. */
  predicate IsBare(data: Bytes, u: Unit) { CarriesParameters(data, u) && u.prefix == 3 && u.end == u.start + 4 }

  /** One parameter-set unit in all, and that one bare. */
  predicate OneBareUnit(data: Bytes, units: seq<Unit>) {
    exists i | 0 <= i < |units| :: IsBare(data, units[i]) && OnlyOne(data, units, i)
  }

  predicate OnlyOne(data: Bytes, units: seq<Unit>, i: nat) {
    forall k | 0 <= k < |units| && k != i :: !CarriesParameters(data, units[k])
  }

  predicate NoneCarries(data: Bytes, units: seq<Unit>) {
    forall k | 0 <= k < |units| :: !CarriesParameters(data, units[k])
  }

  /** The bytes that the first of the units adds to what is kept. */
  lemma KeptHead(data: Bytes, units: seq<Unit>)
    requires AllUnits(data, units) && units != []
    ensures |Concat(ParameterSlices(data, units))| ==
            |KeptOf(data, units[0])| + |Concat(ParameterSlices(data, units[1..]))|
    ensures |KeptOf(data, units[0])| == 0 <==> !CarriesParameters(data, units[0])
    ensures |KeptOf(data, units[0])| == 4 <==> IsBare(data, units[0])
    ensures CarriesParameters(data, units[0]) ==> |KeptOf(data, units[0])| >= 4
  {
    SlicesHead(data, units);
  }

  lemma {:induction false} NothingKept(data: Bytes, units: seq<Unit>)
    requires AllUnits(data, units)
    ensures |Concat(ParameterSlices(data, units))| == 0 <==> NoneCarries(data, units)
    ensures |Concat(ParameterSlices(data, units))| == 0 || |Concat(ParameterSlices(data, units))| >= 4
  {
    if units != [] {
      KeptHead(data, units);
      NothingKept(data, units[1..]);
      NoneCarriesHead(data, units);
    }
  }

  lemma NoneCarriesHead(data: Bytes, units: seq<Unit>)
    requires units != []
    ensures NoneCarries(data, units) <==> !CarriesParameters(data, units[0]) && NoneCarries(data, units[1..])
  {
    assert forall k | 0 < k < |units| :: units[k] == units[1..][k - 1];
    if NoneCarries(data, units[1..]) && !CarriesParameters(data, units[0]) {
      forall k | 0 <= k < |units| ensures !CarriesParameters(data, units[k]) {
        if k > 0 { assert units[k] == units[1..][k - 1]; }
      }
    }
  }

  lemma OneBareUnitHead(data: Bytes, units: seq<Unit>)
    requires units != []
    ensures OneBareUnit(data, units) <==>
              || (IsBare(data, units[0]) && NoneCarries(data, units[1..]))
              || (!CarriesParameters(data, units[0]) && OneBareUnit(data, units[1..]))
  {
    var rest := units[1..];
    assert forall k | 0 <= k < |rest| :: rest[k] == units[k + 1];
    if OneBareUnit(data, units) {
      var i :| 0 <= i < |units| && IsBare(data, units[i]) && OnlyOne(data, units, i);
      if i > 0 {
        assert IsBare(data, rest[i - 1]) && OnlyOne(data, rest, i - 1);
      }
    }
    if IsBare(data, units[0]) && NoneCarries(data, rest) {
      forall k | 0 <= k < |units| && k != 0 ensures !CarriesParameters(data, units[k]) {
        assert units[k] == rest[k - 1];
      }
      assert OnlyOne(data, units, 0);
    } else if !CarriesParameters(data, units[0]) && OneBareUnit(data, rest) {
      var i :| 0 <= i < |rest| && IsBare(data, rest[i]) && OnlyOne(data, rest, i);
      forall k | 0 <= k < |units| && k != i + 1 ensures !CarriesParameters(data, units[k]) {
        if k > 0 { assert units[k] == rest[k - 1]; }
      }
      assert IsBare(data, units[i + 1]) && OnlyOne(data, units, i + 1);
    }
  }

  lemma {:induction false} FourBytesKept(data: Bytes, units: seq<Unit>)
    requires AllUnits(data, units)
    ensures |Concat(ParameterSlices(data, units))| == 4 <==> OneBareUnit(data, units)
  {
    if units != [] {
      KeptHead(data, units);
      NothingKept(data, units[1..]);
      OneBareUnitHead(data, units);
      FourBytesKept(data, units[1..]);
    }
  }

  lemma KeptAgain(sets: Bytes, parts: seq<Bytes>)
    requires ParameterUnits(parts) && sets == Concat(parts)
    ensures ParameterSets(sets) == sets <==> |sets| != 4
  {
    if parts != [] {
      assert ParameterUnit(parts[0], 0 == |parts| - 1);
      ConcatStarts(parts, 0);
      if |sets| >= 5 {
        JoinedIsKept(sets, parts);
      }
    }
  }

  /** The result of an Annex B extraction, extracted again, is itself, unless the stream has exactly one parameter
      set unit and that is bare, a short start code and a header: the size guard rejects those four bytes. */
  lemma ExtractionIsIdempotent(data: Bytes)
    requires |data| >= 5 && IsAnnexB(data)
    ensures ParameterSets(ParameterSets(data)) == ParameterSets(data) <==>
              !OneBareUnit(data, Units(data, NextStart(data, 0)))
  {
    KeptSlices(data);
    var units := Units(data, NextStart(data, 0));
    FourBytesKept(data, units);
    KeptAgain(ParameterSets(data), ParameterSlices(data, units));
  }

  /** Such a stream: a byte before the start code, and then the bare unit. */
  lemma BareUnitIsLost() returns (data: Bytes)
    ensures data == [7, 0, 0, 1, 7] && IsAnnexB(data) && OneBareUnit(data, Units(data, NextStart(data, 0)))
    ensures ParameterSets(data) == [0, 0, 1, 7] && ParameterSets(ParameterSets(data)) == []
  {
    data := [7, 0, 0, 1, 7];
    NextStartIs(data, 0, 1);
    NextStartIs(data, 5, 5);
    var u := Unit(1, 3, 5);
    assert FirstUnit(data, 1) == u && Units(data, 1) == [u];
    assert IsBare(data, [u][0]) && OnlyOne(data, [u], 0);
    KeptIsConcatOfSlices(data, 1);
  }

  lemma TwoKept(data: Bytes, u: Unit, v: Unit, w: Unit)
    requires UnitOf(data, u) && UnitOf(data, v) && UnitOf(data, w)
    requires CarriesParameters(data, u) && !CarriesParameters(data, v) && CarriesParameters(data, w)
    ensures ParameterSlices(data, [u, v, w]) == [Slice(data, u), Slice(data, w)]
    ensures !OneBareUnit(data, [u, v, w])
  {
    assert [u, v, w][1..] == [v, w] && [v, w][1..] == [w] && [w][1..] == [];
    assert ParameterSlices(data, [w]) == [Slice(data, w)];
    assert ParameterSlices(data, [v, w]) == [Slice(data, w)];
    forall i: nat | i < 3 ensures !OnlyOne(data, [u, v, w], i) {
      assert CarriesParameters(data, [u, v, w][if i == 0 then 2 else 0]);
    }
  }

  function Moving(): Bytes { [0, 0, 1, 7, 9, 0, 0, 0, 0, 1, 9, 5, 0, 0, 1, 8] }

  lemma UnitIs(data: Bytes, u: Unit)
    requires u.start + u.prefix < u.end <= |data| && u.prefix == PrefixAt(data, u.start) != 0
    requires forall i | u.start + u.prefix < i < u.end :: PrefixAt(data, i) == 0
    requires u.end < |data| ==> PrefixAt(data, u.end) != 0
    ensures FirstUnit(data, u.start) == u
    ensures Units(data, u.start) == [u] + if u.end == |data| then [] else Units(data, u.end)
  {
    NextStartIs(data, u.start + u.prefix + 1, u.end);
  }

  lemma UnitsOfMoving(u: Unit, v: Unit, w: Unit)
    requires u == Unit(0, 3, 6) && v == Unit(6, 4, 12) && w == Unit(12, 3, 16)
    ensures NextStart(Moving(), 0) == 0 && Units(Moving(), 0) == [u, v, w]
  {
    var data := Moving();
    NextStartIs(data, 0, 0);
    UnitIs(data, w);
    UnitIs(data, v);
    UnitIs(data, u);
    assert [v] + [w] == [v, w] && [u] + [v, w] == [u, v, w];
  }

  lemma UnitsOfMovingAreUnits(u: Unit, v: Unit, w: Unit)
    requires u == Unit(0, 3, 6) && v == Unit(6, 4, 12) && w == Unit(12, 3, 16)
    ensures UnitOf(Moving(), u) && UnitOf(Moving(), v) && UnitOf(Moving(), w)
  {
    UnitsOfMoving(u, v, w);
    assert Units(Moving(), 0)[0] == u && Units(Moving(), 0)[1] == v && Units(Moving(), 0)[2] == w;
  }

  lemma SlicesOfMoving(u: Unit, v: Unit, w: Unit)
    requires u == Unit(0, 3, 6) && v == Unit(6, 4, 12) && w == Unit(12, 3, 16)
    requires UnitOf(Moving(), u) && UnitOf(Moving(), v) && UnitOf(Moving(), w)
    ensures Slice(Moving(), u) == [0, 0, 1, 7, 9, 0] && Slice(Moving(), w) == [0, 0, 1, 8]
    ensures CarriesParameters(Moving(), u) && !CarriesParameters(Moving(), v) && CarriesParameters(Moving(), w)
  {
  }

  lemma KeptOfMoving()
    ensures NextStart(Moving(), 0) == 0 && !OneBareUnit(Moving(), Units(Moving(), 0))
    ensures ParameterSlices(Moving(), Units(Moving(), 0)) == [[0, 0, 1, 7, 9, 0], [0, 0, 1, 8]]
  {
    var u, v, w := Unit(0, 3, 6), Unit(6, 4, 12), Unit(12, 3, 16);
    UnitsOfMoving(u, v, w);
    UnitsOfMovingAreUnits(u, v, w);
    SlicesOfMoving(u, v, w);
    TwoKept(Moving(), u, v, w);
  }

  /** A stream whose joint moves: the zero that ends the first kept unit joins the start code of the second, and
      the second extraction still returns the same bytes. */
  lemma JointMoves() returns (data: Bytes)
    ensures data == [0, 0, 1, 7, 9, 0, 0, 0, 0, 1, 9, 5, 0, 0, 1, 8] && NextStart(data, 0) == 0
    ensures var kept := ParameterSlices(data, Units(data, 0));
            && kept == [[0, 0, 1, 7, 9, 0], [0, 0, 1, 8]] && ParameterUnits(kept)
            && Joint(kept[0], kept[1..]) == |kept[0]| - 1
    ensures ParameterSets(ParameterSets(data)) == ParameterSets(data)
  {
    data := Moving();
    KeptOfMoving();
    KeptSlices(data);
    ExtractionIsIdempotent(data);
    var kept := ParameterSlices(data, Units(data, 0));
    assert kept[1..] == [[0, 0, 1, 8]];
  }

  // ---- Start codes and lengths, as bytes ----

  /** A start code is 0 0 1 or 0 0 0 1 with a byte after it, and nothing else is. */
  lemma StartCodesAre(data: Bytes, i: nat)
    ensures PrefixAt(data, i) == 3 <==> i + 4 <= |data| && data[i..i + 3] == [0, 0, 1]
    ensures PrefixAt(data, i) == 4 <==> i + 5 <= |data| && data[i..i + 4] == [0, 0, 0, 1]
    ensures PrefixAt(data, i) == 0 || PrefixAt(data, i) == 3 || PrefixAt(data, i) == 4
  {
    if i + 4 <= |data| {
      var head := data[i..i + 3];
      assert head[0] == data[i] && head[1] == data[i + 1] && head[2] == data[i + 2];
    }
    if i + 5 <= |data| {
      var head := data[i..i + 4];
      assert head[0] == data[i] && head[1] == data[i + 1] && head[2] == data[i + 2] && head[3] == data[i + 3];
    }
  }

  /** Units behind lengths of four bytes, and what is left behind the last of them. */
  datatype Stream = Rest(bytes: Bytes) | Framed(length: Bytes, body: Bytes, next: Stream)

  /** The number that four bytes write, the highest first. */
  function Written(bytes: Bytes): nat
    requires |bytes| == 4
  {
    (((bytes[0] as nat * 256) + bytes[1] as nat) * 256 + bytes[2] as nat) * 256 + bytes[3] as nat
  }

  /** Nothing a unit can be read from: too short, or behind a length that is zero or runs past the end. */
  predicate IsBroken(rest: Bytes) {
    |rest| <= 4 || Written(rest[..4]) == 0 || Written(rest[..4]) > |rest| - 4
  }

  /** Every unit has its own length in front of it, and nothing can be read from the rest. */
  predicate IsStream(s: Stream) {
    match s
    case Rest(bytes) => IsBroken(bytes)
    case Framed(length, body, next) => |length| == 4 && Written(length) == |body| > 0 && IsStream(next)
  }

  function Flat(s: Stream): Bytes {
    match s
    case Rest(bytes) => bytes
    case Framed(length, body, next) => length + (body + Flat(next))
  }

  /** The stream of its units of type 7 and 8 only, in order, with nothing left behind them. */
  function OnlyParameters(s: Stream): Stream {
    match s
    case Rest(_) => Rest([])
    case Framed(length, body, next) =>
      if body != [] && (body[0] % 32 == 7 || body[0] % 32 == 8) then Framed(length, body, OnlyParameters(next))
      else OnlyParameters(next)
  }

  lemma ReadIsWhatIsWritten(data: Bytes, i: nat)
    requires i + 4 <= |data|
    ensures ReadBe32(data, i) == Written(data[i..i + 4])
  {
    var bytes := data[i..i + 4];
    assert bytes[0] == data[i] && bytes[1] == data[i + 1] && bytes[2] == data[i + 2] && bytes[3] == data[i + 3];
  }

  lemma NothingFromBroken(data: Bytes, offset: nat)
    requires offset <= |data| && IsBroken(data[offset..])
    ensures LengthPrefixed(data, offset) == []
  {
    var rest := data[offset..];
    if |rest| > 4 {
      assert data[offset..offset + 4] == rest[..4];
      ReadIsWhatIsWritten(data, offset);
    }
  }

  lemma TakePrefix(data: Bytes, start: nat, prefix: Bytes, tail: Bytes)
    requires start <= |data| && data[start..] == prefix + tail
    ensures start + |prefix| <= |data| && data[start..start + |prefix|] == prefix
    ensures data[start + |prefix|..] == tail
  {
    DropPrefix(data, start, prefix, tail);
    assert data[start..start + |prefix|] == data[start..][..|prefix|];
  }

  lemma UnitAt(data: Bytes, offset: nat, length: Bytes, body: Bytes, tail: Bytes) returns (after: nat)
    requires offset <= |data| && |length| == 4 && Written(length) == |body|
    requires data[offset..] == length + (body + tail)
    ensures after == offset + 4 + |body| <= |data| && ReadBe32(data, offset) == |body| && data[after..] == tail
    ensures data[offset..offset + 4] == length && data[offset + 4..after] == body
  {
    TakePrefix(data, offset, length, body + tail);
    TakePrefix(data, offset + 4, body, tail);
    ReadIsWhatIsWritten(data, offset);
    after := offset + 4 + |body|;
  }

  lemma WalkTakes(data: Bytes, offset: nat, after: nat, length: Bytes, body: Bytes)
    requires |length| == 4 && after == offset + 4 + |body| <= |data| && ReadBe32(data, offset) == |body| > 0
    requires data[offset..offset + 4] == length && data[offset + 4..after] == body
    ensures LengthPrefixed(data, offset) ==
              if body[0] % 32 == 7 || body[0] % 32 == 8 then length + (body + LengthPrefixed(data, after))
              else LengthPrefixed(data, after)
  {
    assert data[offset + 4] == data[offset + 4..after][0];
    assert data[offset..after] == length + body;
    AppendAssociates(length, body, LengthPrefixed(data, after));
  }

  lemma {:induction false} WalkKeepsParameters(data: Bytes, offset: nat, s: Stream)
    requires offset <= |data| && IsStream(s) && data[offset..] == Flat(s)
    ensures LengthPrefixed(data, offset) == Flat(OnlyParameters(s))
    decreases s
  {
    match s
    case Rest(bytes) =>
      NothingFromBroken(data, offset);
    case Framed(length, body, next) =>
      var after := UnitAt(data, offset, length, body, Flat(next));
      WalkKeepsParameters(data, after, next);
      WalkTakes(data, offset, after, length, body);
  }

  /** The round trip: from the bytes of any stream the walk gives the bytes of the stream of its parameter sets. */
  lemma LengthPrefixedRoundTrip(s: Stream)
    requires IsStream(s)
    ensures LengthPrefixed(Flat(s), 0) == Flat(OnlyParameters(s))
  {
    assert Flat(s)[0..] == Flat(s);
    WalkKeepsParameters(Flat(s), 0, s);
  }

  /** All bytes are those of a stream: this is all the walk ever meets. */
  lemma {:induction false} EveryDataIsAStream(data: Bytes) returns (s: Stream)
    ensures IsStream(s) && Flat(s) == data
    decreases |data|
  {
    if IsBroken(data) {
      s := Rest(data);
    } else {
      var next := 4 + Written(data[..4]);
      s := EveryDataIsAStream(data[next..]);
      s := Framed(data[..4], data[4..next], s);
      assert data == data[..4] + (data[4..next] + data[next..]);
    }
  }

  /** And of one stream only. */
  lemma {:induction false} StreamsAreUnique(s: Stream, t: Stream)
    requires IsStream(s) && IsStream(t) && Flat(s) == Flat(t)
    ensures s == t
  {
    if s.Rest? && t.Framed? {
      FramedIsNotBroken(t);
    } else if s.Framed? && t.Rest? {
      FramedIsNotBroken(s);
    } else if s.Framed? && t.Framed? {
      TakePrefix(Flat(s), 0, s.length, s.body + Flat(s.next));
      TakePrefix(Flat(s), 0, t.length, t.body + Flat(t.next));
      TakePrefix(Flat(s), 4, s.body, Flat(s.next));
      TakePrefix(Flat(s), 4, t.body, Flat(t.next));
      StreamsAreUnique(s.next, t.next);
    }
  }

  lemma FramedIsNotBroken(s: Stream)
    requires IsStream(s) && s.Framed?
    ensures !IsBroken(Flat(s))
  {
    assert Flat(s)[..4] == s.length;
  }

  lemma CodesHavePatterns(data: Bytes, i: nat)
    ensures PrefixAt(data, i) != 0 ==>
              (i < |data| - 3 && HasPattern(data, i)) || (i + 1 < |data| - 3 && HasPattern(data, i + 1))
  {
  }

  /** What is extracted from any data that holds no start code: the parameter sets of its length-prefixed units. */
  lemma WithoutStartCodes(s: Stream)
    requires IsStream(s) && forall i | 0 <= i < |Flat(s)| - 3 :: !HasPattern(Flat(s), i)
    ensures ParameterSets(Flat(s)) == Flat(OnlyParameters(s))
  {
    var data := Flat(s);
    forall i: nat | i < |data| ensures PrefixAt(data, i) == 0 {
      CodesHavePatterns(data, i);
    }
    NextStartIs(data, 0, |data|);
    LengthPrefixedRoundTrip(s);
    if |data| < 5 {
      assert LengthPrefixed(data, 0) == [];
    }
  }
}
