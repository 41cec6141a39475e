/**
 `__usb_detect_quirks`: walk a rule table up to its terminating entry and OR
 together the truncated `driver_info` of every row that matches the device.
 */
module Scan {
  import opened QuirkFlags
  import opened Descriptors
  import opened DeviceIds
  import opened InterfaceSearch

  /** The table holds a terminating entry, so the scan stops inside it. */
  predicate Terminated(t: seq<DeviceId>)
    decreases |t|
  {
    |t| > 0 && (IsTerminator(t[0]) || Terminated(t[1..]))
  }

  /** The rows the scan examines: all rows before the first terminating entry. */
  function Active(t: seq<DeviceId>): (a: seq<DeviceId>)
    requires Terminated(t)
    ensures |a| < |t| && a == t[..|a|] && IsTerminator(t[|a|])
    ensures forall r :: r in a ==> !IsTerminator(r)
    decreases |t|
  {
    if IsTerminator(t[0]) then
      []
    else
      [t[0]] + Active(t[1..])
  }

  /** Interface data is available wherever the scan of this row would search it:
      an INT_INFO row that passes the device match needs the configuration tree. */
  predicate RowReady(m: Matcher, dev: DeviceTree, id: DeviceId) {
    IsIntInfo(id) && m.device(dev.descriptor, id) ==> ConfigsReady(dev)
  }

  /** What the scan of `t` demands: a terminating entry, and interface data for
      every examined row that will search it. */
  predicate ScanReady(m: Matcher, dev: DeviceTree, t: seq<DeviceId>) {
    Terminated(t) && forall r :: r in Active(t) ==> RowReady(m, dev, r)
  }

  /** A row applies to the device: the device match passes and, for an
      INT_INFO row, some interface matches too. */
  predicate RowMatches(m: Matcher, dev: DeviceTree, id: DeviceId)
    requires RowReady(m, dev, id)
  {
    m.device(dev.descriptor, id) && (IsIntInfo(id) ==> SomeInterfaceMatches(m, dev, id))
  }

  /** One iteration of the scan loop: what a row ORs into the accumulator.
      The interface search runs only for an INT_INFO row whose device match passed. */
  function Contribution(m: Matcher, dev: DeviceTree, id: DeviceId): (c: Mask)
    requires RowReady(m, dev, id)
  {
    if !m.device(dev.descriptor, id) then
      0
    else if IsIntInfo(id) && !MatchAnyInterface(m, dev, id) then
      0
    else
      Truncate(id.driverInfo)
  }

  /** A matching row contributes its truncated driver_info, any other row nothing. */
  lemma ContributionOfRow(m: Matcher, dev: DeviceTree, id: DeviceId)
    requires RowReady(m, dev, id)
    ensures RowMatches(m, dev, id) ==> Contribution(m, dev, id) == Truncate(id.driverInfo)
    ensures !RowMatches(m, dev, id) ==> Contribution(m, dev, id) == 0
  {
  }

  /** The union of the contributions of `rows`, accumulated left to right. */
  function UnionOf(m: Matcher, dev: DeviceTree, rows: seq<DeviceId>): (u: Mask)
    requires forall r :: r in rows ==> RowReady(m, dev, r)
  {
    if |rows| == 0 then
      0
    else
      var front := rows[..|rows| - 1];
      assert forall r :: r in front ==> r in rows;
      UnionOf(m, dev, front) | Contribution(m, dev, rows[|rows| - 1])
  }

  /** `__usb_detect_quirks`: the sentinel-driven scan, front to back. */
  function DetectQuirks(m: Matcher, dev: DeviceTree, t: seq<DeviceId>): (q: Mask)
    requires ScanReady(m, dev, t)
    ensures q == UnionOf(m, dev, Active(t))
    decreases |t|
  {
    if IsTerminator(t[0]) then
      0
    else
      assert Active(t) == [t[0]] + Active(t[1..]);
      UnionOfCons(m, dev, t[0], Active(t[1..]));
      Contribution(m, dev, t[0]) | DetectQuirks(m, dev, t[1..])
  }

  /** The scan as the source writes it: a cursor loop with an accumulator that
      starts at zero and only ever has bits ORed into it. */
  method DetectQuirksLoop(m: Matcher, dev: DeviceTree, t: seq<DeviceId>) returns (quirks: Mask)
    requires ScanReady(m, dev, t)
    ensures quirks == DetectQuirks(m, dev, t)
  {
    quirks := 0;
    var i := 0;
    while !IsTerminator(t[i])
      invariant 0 <= i <= |Active(t)|
      invariant t[..i] == Active(t)[..i]
      invariant quirks == UnionOf(m, dev, t[..i])
      decreases |Active(t)| - i
    {
      var id := t[i];
      assert id == Active(t)[i] && RowReady(m, dev, id);
      ghost var before := quirks;
      var hit := m.device(dev.descriptor, id) && !(IsIntInfo(id) && !MatchAnyInterface(m, dev, id));
      if hit {
        quirks := quirks | Truncate(id.driverInfo);
      }
      LoopStep(m, dev, t[..i], id, before, quirks, hit);
      assert t[..i + 1] == t[..i] + [id];
      i := i + 1;
    }
    assert t[..i] == Active(t);
  }

  /** One iteration of the source loop extends the accumulated union by one row. */
  lemma LoopStep(m: Matcher, dev: DeviceTree, rows: seq<DeviceId>, id: DeviceId, before: Mask, after: Mask, hit: bool)
    requires forall r :: r in rows ==> RowReady(m, dev, r)
    requires RowReady(m, dev, id)
    requires before == UnionOf(m, dev, rows)
    requires hit == (m.device(dev.descriptor, id) && !(IsIntInfo(id) && !MatchAnyInterface(m, dev, id)))
    requires after == if hit then before | Truncate(id.driverInfo) else before
    ensures forall r :: r in rows + [id] ==> RowReady(m, dev, r)
    ensures after == UnionOf(m, dev, rows + [id])
  {
    var c := Contribution(m, dev, id);
    StepContribution(m, dev, id, hit);
    OrStep(before, after, Truncate(id.driverInfo), c, hit);
    SnocUnion(m, dev, rows, id, before, after, c);
  }

  lemma StepContribution(m: Matcher, dev: DeviceTree, id: DeviceId, hit: bool)
    requires RowReady(m, dev, id)
    requires hit == (m.device(dev.descriptor, id) && !(IsIntInfo(id) && !MatchAnyInterface(m, dev, id)))
    ensures hit ==> Contribution(m, dev, id) == Truncate(id.driverInfo)
    ensures !hit ==> Contribution(m, dev, id) == 0
  {
  }

  lemma OrStep(before: Mask, after: Mask, info: Mask, c: Mask, hit: bool)
    requires after == if hit then before | info else before
    requires (hit ==> c == info) && (!hit ==> c == 0)
    ensures after == before | c
  {
  }

  lemma SnocUnion(m: Matcher, dev: DeviceTree, rows: seq<DeviceId>, id: DeviceId, before: Mask, after: Mask, c: Mask)
    requires forall r :: r in rows ==> RowReady(m, dev, r)
    requires RowReady(m, dev, id)
    requires before == UnionOf(m, dev, rows)
    requires c == Contribution(m, dev, id)
    requires after == before | c
    ensures forall r :: r in rows + [id] ==> RowReady(m, dev, r)
    ensures after == UnionOf(m, dev, rows + [id])
  {
    UnionOfSnoc(m, dev, rows, id);
  }

  /** Appending a row ORs its contribution into the union: one loop iteration. */
  lemma UnionOfSnoc(m: Matcher, dev: DeviceTree, rows: seq<DeviceId>, x: DeviceId)
    requires forall r :: r in rows ==> RowReady(m, dev, r)
    requires RowReady(m, dev, x)
    ensures forall r :: r in rows + [x] ==> RowReady(m, dev, r)
    ensures UnionOf(m, dev, rows + [x]) == UnionOf(m, dev, rows) | Contribution(m, dev, x)
  {
    assert (rows + [x])[..|rows|] == rows;
  }

  /** Prepending a row ORs its contribution into the union. */
  lemma {:induction false} UnionOfCons(m: Matcher, dev: DeviceTree, x: DeviceId, rows: seq<DeviceId>)
    requires RowReady(m, dev, x)
    requires forall r :: r in rows ==> RowReady(m, dev, r)
    ensures forall r :: r in [x] + rows ==> RowReady(m, dev, r)
    ensures UnionOf(m, dev, [x] + rows) == Contribution(m, dev, x) | UnionOf(m, dev, rows)
    decreases |rows|
  {
    if |rows| > 0 {
      var front := rows[..|rows| - 1];
      assert ([x] + rows)[..|rows|] == [x] + front;
      UnionOfCons(m, dev, x, front);
    }
  }

  /** Every contribution is contained in the union. */
  lemma {:induction false} UnionOfUpper(m: Matcher, dev: DeviceTree, rows: seq<DeviceId>)
    requires forall r :: r in rows ==> RowReady(m, dev, r)
    ensures forall r :: r in rows ==> Subset(Contribution(m, dev, r), UnionOf(m, dev, rows))
    decreases |rows|
  {
    if |rows| > 0 {
      var front := rows[..|rows| - 1];
      assert forall r :: r in front ==> r in rows;
      UnionOfUpper(m, dev, front);
      assert forall r :: r in rows ==> r in front || r == rows[|rows| - 1];
    }
  }

  /** The union is the least mask that contains every contribution. */
  lemma {:induction false} UnionOfLeast(m: Matcher, dev: DeviceTree, rows: seq<DeviceId>, u: Mask)
    requires forall r :: r in rows ==> RowReady(m, dev, r)
    requires forall r :: r in rows ==> Subset(Contribution(m, dev, r), u)
    ensures Subset(UnionOf(m, dev, rows), u)
    decreases |rows|
  {
    if |rows| > 0 {
      var front, last := rows[..|rows| - 1], rows[|rows| - 1];
      assert forall r :: r in front ==> r in rows;
      UnionOfLeast(m, dev, front, u);
      assert last in rows;
      LeastStep(m, dev, front, last, u);
      assert front + [last] == rows;
    }
  }

  /** One step of `UnionOfLeast`: a bound of the union so far and of the next
      contribution bounds the extended union. */
  lemma LeastStep(m: Matcher, dev: DeviceTree, front: seq<DeviceId>, last: DeviceId, u: Mask)
    requires forall r :: r in front ==> RowReady(m, dev, r)
    requires RowReady(m, dev, last)
    requires Subset(UnionOf(m, dev, front), u) && Subset(Contribution(m, dev, last), u)
    ensures forall r :: r in front + [last] ==> RowReady(m, dev, r)
    ensures Subset(UnionOf(m, dev, front + [last]), u)
  {
    UnionOfSnoc(m, dev, front, last);
    SubsetOfOr(UnionOf(m, dev, front), Contribution(m, dev, last), u);
  }

  /** The scan computes exactly the union of the truncated driver_info of the
      examined rows that match: each matching row's bits are in the result, and
      the result lies within any mask that holds all of them. */
  lemma DetectQuirksIsLeastUnion(m: Matcher, dev: DeviceTree, t: seq<DeviceId>, u: Mask)
    requires ScanReady(m, dev, t)
    ensures forall r :: r in Active(t) && RowMatches(m, dev, r) ==>
      Subset(Truncate(r.driverInfo), DetectQuirks(m, dev, t))
    ensures (forall r :: r in Active(t) && RowMatches(m, dev, r) ==> Subset(Truncate(r.driverInfo), u)) ==>
      Subset(DetectQuirks(m, dev, t), u)
  {
    var a := Active(t);
    forall r | r in a {
      ContributionOfRow(m, dev, r);
    }
    UnionOfUpper(m, dev, a);
    if forall r :: r in a && RowMatches(m, dev, r) ==> Subset(Truncate(r.driverInfo), u) {
      UnionOfLeast(m, dev, a, u);
    }
  }

  /** One matching examined row: its truncated bits are in the result. */
  lemma MatchingRowInResult(m: Matcher, dev: DeviceTree, t: seq<DeviceId>, r: DeviceId)
    requires ScanReady(m, dev, t)
    requires r in Active(t) && RowMatches(m, dev, r)
    ensures Subset(Truncate(r.driverInfo), DetectQuirks(m, dev, t))
  {
    ContributionOfRow(m, dev, r);
    UnionOfUpper(m, dev, Active(t));
  }

  /** When some examined row matches and every matching examined row carries
      the same bits `x`, the scan yields exactly `x`: duplicates collapse. */
  lemma DetectQuirksSingleValue(m: Matcher, dev: DeviceTree, t: seq<DeviceId>, r0: DeviceId, x: Mask)
    requires ScanReady(m, dev, t)
    requires r0 in Active(t) && RowMatches(m, dev, r0) && Truncate(r0.driverInfo) == x
    requires forall r :: r in Active(t) && RowMatches(m, dev, r) ==> Truncate(r.driverInfo) == x
    ensures DetectQuirks(m, dev, t) == x
  {
    MatchingRowInResult(m, dev, t, r0);
    forall r | r in Active(t) && RowMatches(m, dev, r)
      ensures Subset(Truncate(r.driverInfo), x)
    {
      SubsetReflexive(x);
    }
    DetectQuirksIsLeastUnion(m, dev, t, x);
    SubsetAntisymmetric(DetectQuirks(m, dev, t), x);
  }

  /** Two scans ORed together (the device pass followed by the interface
      pass) hold the bits of every matching examined row of either table. */
  lemma TwoScansUpper(m: Matcher, dev: DeviceTree, t1: seq<DeviceId>, t2: seq<DeviceId>)
    requires ScanReady(m, dev, t1) && ScanReady(m, dev, t2)
    ensures forall r :: (r in Active(t1) || r in Active(t2)) && RowMatches(m, dev, r) ==>
      Subset(Truncate(r.driverInfo), DetectQuirks(m, dev, t1) | DetectQuirks(m, dev, t2))
  {
    forall r | (r in Active(t1) || r in Active(t2)) && RowMatches(m, dev, r) {
      RowInTwoScans(m, dev, t1, t2, r);
    }
  }

  /** ... and nothing else: any mask holding the bits of every matching
      examined row of either table holds the two scans ORed together. */
  lemma TwoScansLeast(m: Matcher, dev: DeviceTree, t1: seq<DeviceId>, t2: seq<DeviceId>, u: Mask)
    requires ScanReady(m, dev, t1) && ScanReady(m, dev, t2)
    requires forall r :: (r in Active(t1) || r in Active(t2)) && RowMatches(m, dev, r) ==> Subset(Truncate(r.driverInfo), u)
    ensures Subset(DetectQuirks(m, dev, t1) | DetectQuirks(m, dev, t2), u)
  {
    DetectQuirksIsLeastUnion(m, dev, t1, u);
    DetectQuirksIsLeastUnion(m, dev, t2, u);
    SubsetOfOr(DetectQuirks(m, dev, t1), DetectQuirks(m, dev, t2), u);
  }

  lemma RowInTwoScans(m: Matcher, dev: DeviceTree, t1: seq<DeviceId>, t2: seq<DeviceId>, r: DeviceId)
    requires ScanReady(m, dev, t1) && ScanReady(m, dev, t2)
    requires (r in Active(t1) || r in Active(t2)) && RowMatches(m, dev, r)
    ensures Subset(Truncate(r.driverInfo), DetectQuirks(m, dev, t1) | DetectQuirks(m, dev, t2))
  {
    if r in Active(t1) {
      RowInWidenedResult(m, dev, t1, r, DetectQuirks(m, dev, t2));
    } else {
      RowInWidenedResult(m, dev, t2, r, DetectQuirks(m, dev, t1));
    }
  }

  /** A matching examined row's bits survive ORing anything into the result. */
  lemma RowInWidenedResult(m: Matcher, dev: DeviceTree, t: seq<DeviceId>, r: DeviceId, other: Mask)
    requires ScanReady(m, dev, t)
    requires r in Active(t) && RowMatches(m, dev, r)
    ensures Subset(Truncate(r.driverInfo), DetectQuirks(m, dev, t) | other)
    ensures Subset(Truncate(r.driverInfo), other | DetectQuirks(m, dev, t))
  {
    var q := DetectQuirks(m, dev, t);
    MatchingRowInResult(m, dev, t, r);
    assert Subset(Truncate(r.driverInfo), q);
    SubsetWidens(Truncate(r.driverInfo), q, other);
  }

  /** The accumulator only grows: after any number of iterations it is contained
      in its value after any later iteration, and in the final result. */
  lemma AccumulatorGrows(m: Matcher, dev: DeviceTree, t: seq<DeviceId>, i: nat, j: nat)
    requires ScanReady(m, dev, t)
    requires i <= j <= |Active(t)|
    ensures Subset(UnionOf(m, dev, Active(t)[..i]), UnionOf(m, dev, Active(t)[..j]))
    ensures Subset(UnionOf(m, dev, Active(t)[..j]), DetectQuirks(m, dev, t))
  {
    var a := Active(t);
    assert forall r :: r in a[..i] ==> r in a[..j];
    assert forall r :: r in a[..j] ==> r in a;
    UnionOfUpper(m, dev, a[..j]);
    UnionOfLeast(m, dev, a[..i], UnionOf(m, dev, a[..j]));
    UnionOfUpper(m, dev, a);
    UnionOfLeast(m, dev, a[..j], DetectQuirks(m, dev, t));
  }

  /** Row order and repetition do not matter: two tables whose examined rows are
      the same rows (in particular, a reordering of them) give the same result. */
  lemma DetectQuirksOrderIndependent(m: Matcher, dev: DeviceTree, t1: seq<DeviceId>, t2: seq<DeviceId>)
    requires ScanReady(m, dev, t1) && ScanReady(m, dev, t2)
    requires forall r :: r in Active(t1) <==> r in Active(t2)
    ensures DetectQuirks(m, dev, t1) == DetectQuirks(m, dev, t2)
  {
    var q1, q2 := DetectQuirks(m, dev, t1), DetectQuirks(m, dev, t2);
    UnionOfUpper(m, dev, Active(t1));
    UnionOfUpper(m, dev, Active(t2));
    UnionOfLeast(m, dev, Active(t1), q2);
    UnionOfLeast(m, dev, Active(t2), q1);
    SubsetAntisymmetric(q1, q2);
  }

  /** A run of non-terminating rows followed by a terminating entry is examined
      in full, whatever comes after the terminator. */
  lemma {:induction false} ActiveUpToTerminator(rows: seq<DeviceId>, t: seq<DeviceId>)
    requires forall r :: r in rows ==> !IsTerminator(r)
    requires |t| > 0 && IsTerminator(t[0])
    ensures Terminated(rows + t)
    ensures Active(rows + t) == rows
    decreases |rows|
  {
    if |rows| == 0 {
      assert rows + t == t;
    } else {
      var rest := rows[1..];
      assert forall r :: r in rest ==> !IsTerminator(r) by {
        assert forall r :: r in rest ==> r in rows;
      }
      ActiveUpToTerminator(rest, t);
      assert (rows + t)[1..] == rest + t;
      assert !IsTerminator((rows + t)[0]) by {
        assert (rows + t)[0] == rows[0] && rows[0] in rows;
      }
      assert rows == [rows[0]] + rest;
    }
  }

  /** Whatever follows the first terminating entry does not change the result. */
  lemma RowsAfterTerminatorIgnored(m: Matcher, dev: DeviceTree, t: seq<DeviceId>, tail: seq<DeviceId>)
    requires ScanReady(m, dev, t)
    ensures ScanReady(m, dev, t[..|Active(t)| + 1] + tail)
    ensures DetectQuirks(m, dev, t[..|Active(t)| + 1] + tail) == DetectQuirks(m, dev, t)
  {
    var a := Active(t);
    var rest := [t[|a|]] + tail;
    ActiveUpToTerminator(a, rest);
    assert t[..|a| + 1] + tail == a + rest;
  }

  /** A table holding only the terminating entry yields no quirks for any device. */
  lemma TerminatorOnlyTableIsEmpty(m: Matcher, dev: DeviceTree)
    ensures ScanReady(m, dev, [Terminator])
    ensures DetectQuirks(m, dev, [Terminator]) == 0
  {
    assert IsTerminator([Terminator][0]);
  }

  /** Rows that are not INT_INFO never look past the device descriptor: their
      union is the same for any two trees with the same device descriptor,
      whether or not the configuration descriptors have been read. */
  lemma {:induction false} UnionOfDescriptorOnly(m: Matcher, d1: DeviceTree, d2: DeviceTree, rows: seq<DeviceId>)
    requires d1.descriptor == d2.descriptor
    requires forall r :: r in rows ==> !IsIntInfo(r)
    ensures UnionOf(m, d1, rows) == UnionOf(m, d2, rows)
    decreases |rows|
  {
    if |rows| > 0 {
      var front := rows[..|rows| - 1];
      assert forall r :: r in front ==> r in rows;
      UnionOfDescriptorOnly(m, d1, d2, front);
      assert rows[|rows| - 1] in rows;
    }
  }

  /** The interface matcher is consulted only for INT_INFO rows whose device match
      passed: two interface matchers whose searches agree on those rows give the
      same result, however they differ on every other row. */
  lemma InterfaceSearchOnlyAfterDeviceMatch(
    device: (DeviceDescriptor, DeviceId) -> bool,
    intf1: (DeviceDescriptor, InterfaceDescriptor, DeviceId) -> bool,
    intf2: (DeviceDescriptor, InterfaceDescriptor, DeviceId) -> bool,
    dev: DeviceTree, t: seq<DeviceId>)
    requires ScanReady(Matcher(device, intf1), dev, t)
    requires forall r :: r in Active(t) && IsIntInfo(r) && device(dev.descriptor, r) ==>
      MatchAnyInterface(Matcher(device, intf1), dev, r) == MatchAnyInterface(Matcher(device, intf2), dev, r)
    ensures ScanReady(Matcher(device, intf2), dev, t)
    ensures DetectQuirks(Matcher(device, intf1), dev, t) == DetectQuirks(Matcher(device, intf2), dev, t)
  {
    var m1, m2 := Matcher(device, intf1), Matcher(device, intf2);
    var a := Active(t);
    assert forall r :: r in a ==> RowReady(m2, dev, r);
    assert forall r :: r in a ==> Contribution(m1, dev, r) == Contribution(m2, dev, r);
    var q1, q2 := DetectQuirks(m1, dev, t), DetectQuirks(m2, dev, t);
    UnionOfUpper(m1, dev, a);
    UnionOfUpper(m2, dev, a);
    UnionOfLeast(m1, dev, a, q2);
    UnionOfLeast(m2, dev, a, q1);
    SubsetAntisymmetric(q1, q2);
  }
}
