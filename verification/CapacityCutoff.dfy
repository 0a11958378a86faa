/** The capacity check a checkout repeats after its cart exists: it asks of each class whether a place is left,
    not whether there are places for all of the cart's lines. */
module CapacityCutoff {
  import opened Wrappers

  datatype Class = Class(organizationId: string, festivalId: string, isActive: bool, capacity: int)

  datatype Line = Line(childId: string, classId: string)

  datatype Failure = Failure(childId: string, classId: string, noLongerActive: bool, capacity: int, placed: nat)

  /** The classes found for the cart, and the confirmed entitlements by class (none when nothing counts them). */
  datatype Cutoff = Cutoff(
    organizationId: string, festivalId: string, classes: map<string, Class>, confirmed: map<string, nat>)

  function Placed(c: Cutoff, id: string): nat {
    if id in c.confirmed then c.confirmed[id] else 0
  }

  function IsActive(c: Cutoff, id: string): bool {
    id in c.classes && c.classes[id].isActive
  }

  function CapacityOf(c: Cutoff, id: string): int {
    if id in c.classes then c.classes[id].capacity else 0
  }

  /** The class is active, of this organization and festival, and has a place left. */
  predicate HasPlace(c: Cutoff, id: string) {
    && IsActive(c, id)
    && c.classes[id].organizationId == c.organizationId
    && c.classes[id].festivalId == c.festivalId
    && CapacityOf(c, id) > 0
    && Placed(c, id) < CapacityOf(c, id)
  }

  function FailureOf(c: Cutoff, line: Line): Failure {
    Failure(line.childId, line.classId, !IsActive(c, line.classId),
            CapacityOf(c, line.classId), Placed(c, line.classId))
  }

  /** The class ids of the lines, each once, in order of first appearance. */
  function DistinctIds(lines: seq<Line>): (ids: seq<string>)
    ensures forall id :: id in ids <==> exists i :: 0 <= i < |lines| && lines[i].classId == id
    ensures forall i, j :: 0 <= i < j < |ids| ==> ids[i] != ids[j]
  {
    if lines == [] then []
    else
      var n := |lines| - 1;
      var ids := DistinctIds(lines[..n]);
      assert forall i :: 0 <= i < n ==> lines[..n][i] == lines[i];
      if lines[n].classId in ids then ids else ids + [lines[n].classId]
  }

  function Matching(lines: seq<Line>, id: string): seq<Line> {
    if lines == [] then []
    else Matching(lines[..|lines| - 1], id) + if lines[|lines| - 1].classId == id then [lines[|lines| - 1]] else []
  }

  lemma {:induction false} MatchingAre(lines: seq<Line>, id: string, line: Line)
    ensures line in Matching(lines, id) <==> line in lines && line.classId == id
    decreases |lines|
  {
    if lines != [] {
      var n := |lines| - 1;
      MatchingAre(lines[..n], id, line);
      assert lines == lines[..n] + [lines[n]];
    }
  }

  /** The positions of the lines of a class among the first n, in order, with those lines. */
  ghost predicate ArePositions(lines: seq<Line>, n: nat, id: string, matching: seq<Line>, at: seq<nat>) {
    && |at| == |matching|
    && (forall i :: 0 <= i < |at| ==> at[i] < |lines| && matching[i] == lines[at[i]])
    && (forall i, j :: 0 <= i < j < |at| ==> at[i] < at[j])
    && forall p: nat :: p in at <==> p < n <= |lines| && lines[p].classId == id
  }

  lemma PositionAdded(lines: seq<Line>, n: nat, id: string, matching: seq<Line>, at: seq<nat>)
    requires n < |lines| && ArePositions(lines, n, id, matching, at) && lines[n].classId == id
    ensures ArePositions(lines, n + 1, id, matching + [lines[n]], at + [n])
  {
    forall i | 0 <= i < |at| ensures at[i] < n {
      assert at[i] in at;
    }
    forall p: nat ensures p in at + [n] <==> p < n + 1 && lines[p].classId == id {
      assert p in at + [n] <==> p in at || p == n;
    }
  }

  lemma MatchingStep(lines: seq<Line>, n: nat, id: string)
    requires n < |lines|
    ensures Matching(lines[..n + 1], id)
         == Matching(lines[..n], id) + if lines[n].classId == id then [lines[n]] else []
  {
    assert lines[..n + 1][..n] == lines[..n];
  }

  lemma {:induction false} MatchingPositions(lines: seq<Line>, n: nat, id: string) returns (at: seq<nat>)
    requires n <= |lines|
    ensures ArePositions(lines, n, id, Matching(lines[..n], id), at)
    decreases n
  {
    at := [];
    if n > 0 {
      at := MatchingPositions(lines, n - 1, id);
      MatchingStep(lines, n - 1, id);
      hide Matching;
      if lines[n - 1].classId == id {
        PositionAdded(lines, n - 1, id, Matching(lines[..n - 1], id), at);
        at := at + [n - 1];
      } else {
        assert Matching(lines[..n], id) == Matching(lines[..n - 1], id);
      }
    }
  }

  /** The class has no place to give: it is not known, not active, of another organization or festival, without
      capacity, or full. */
  ghost predicate NoPlace(c: Cutoff, id: string) {
    || id !in c.classes
    || !c.classes[id].isActive
    || c.classes[id].organizationId != c.organizationId
    || c.classes[id].festivalId != c.festivalId
    || c.classes[id].capacity <= 0
    || (id in c.confirmed && c.confirmed[id] >= c.classes[id].capacity)
  }

  lemma NoPlaceExactly(c: Cutoff, id: string)
    ensures NoPlace(c, id) <==> !HasPlace(c, id)
  {
  }

  /** A failure names the line's child and class, says whether that class is gone or inactive, and gives its
      capacity and its confirmed count, zero where there is none. */
  ghost predicate Describes(f: Failure, c: Cutoff, line: Line) {
    && f.childId == line.childId && f.classId == line.classId
    && (line.classId in c.classes ==>
          && f.noLongerActive == !c.classes[line.classId].isActive
          && f.capacity == c.classes[line.classId].capacity)
    && (line.classId !in c.classes ==> f.noLongerActive && f.capacity == 0)
    && (line.classId in c.confirmed ==> f.placed == c.confirmed[line.classId])
    && (line.classId !in c.confirmed ==> f.placed == 0)
  }

  /** What is reported after the first `k` classes: at[i] is the position of the line that failure i describes, no
      position is there twice, and those there are the positions of the lines of these classes without a place. */
  ghost predicate Reported(c: Cutoff, lines: seq<Line>, ids: seq<string>, k: nat, failures: seq<Failure>, at: seq<nat>)
    requires k <= |ids|
  {
    && |at| == |failures|
    && (forall i :: 0 <= i < |at| ==> at[i] < |lines| && Describes(failures[i], c, lines[at[i]]))
    && (forall i, j :: 0 <= i < j < |at| ==> at[i] != at[j])
    && forall p: nat :: p in at <==> p < |lines| && lines[p].classId in ids[..k] && NoPlace(c, lines[p].classId)
  }

  method AppendFailures(c: Cutoff, matching: seq<Line>, failures: seq<Failure>) returns (more: seq<Failure>)
    ensures |more| == |failures| + |matching| && more[..|failures|] == failures
    ensures forall i :: 0 <= i < |matching| ==> Describes(more[|failures| + i], c, matching[i])
  {
    more := failures;
    var i := 0;
    while i < |matching|
      invariant 0 <= i <= |matching| && |more| == |failures| + i && more[..|failures|] == failures
      invariant forall j :: 0 <= j < i ==> Describes(more[|failures| + j], c, matching[j])
    {
      more := more + [FailureOf(c, matching[i])];
      i := i + 1;
    }
  }

  lemma DescribedAll(c: Cutoff, lines: seq<Line>, failures: seq<Failure>, at: seq<nat>, m: seq<Line>, found: seq<nat>,
                     more: seq<Failure>)
    requires |at| == |failures| && |found| == |m| && |more| == |failures| + |m| && more[..|failures|] == failures
    requires forall i :: 0 <= i < |at| ==> at[i] < |lines| && Describes(failures[i], c, lines[at[i]])
    requires forall i :: 0 <= i < |m| ==> found[i] < |lines| && m[i] == lines[found[i]]
    requires forall i :: 0 <= i < |m| ==> Describes(more[|failures| + i], c, m[i])
    ensures forall i :: 0 <= i < |at + found| ==>
              (at + found)[i] < |lines| && Describes(more[i], c, lines[(at + found)[i]])
  {
    hide Describes;
    forall i | 0 <= i < |at + found|
      ensures (at + found)[i] < |lines| && Describes(more[i], c, lines[(at + found)[i]])
    {
      if i < |at| {
        assert more[i] == more[..|failures|][i];
      } else {
        var j := i - |at|;
        assert Describes(more[|failures| + j], c, m[j]);
      }
    }
  }

  lemma NoneTwice(at: seq<nat>, found: seq<nat>)
    requires forall i, j :: 0 <= i < j < |at| ==> at[i] != at[j]
    requires forall i, j :: 0 <= i < j < |found| ==> found[i] < found[j]
    requires forall p :: p in at ==> p !in found
    ensures forall i, j :: 0 <= i < j < |at + found| ==> (at + found)[i] != (at + found)[j]
  {
    forall i, j | 0 <= i < j < |at + found| ensures (at + found)[i] != (at + found)[j] {
      if i < |at| && j >= |at| {
        assert at[i] in at && found[j - |at|] in found;
      }
    }
  }

  lemma ReportedStep(c: Cutoff, lines: seq<Line>, ids: seq<string>, k: nat, failures: seq<Failure>, at: seq<nat>,
                     more: seq<Failure>, found: seq<nat>)
    requires k < |ids| && Reported(c, lines, ids, k, failures, at) && NoPlace(c, ids[k]) && ids[k] !in ids[..k]
    requires ArePositions(lines, |lines|, ids[k], Matching(lines, ids[k]), found)
    requires
      var m := Matching(lines, ids[k]);
      && |more| == |failures| + |m| && more[..|failures|] == failures
      && forall i :: 0 <= i < |m| ==> Describes(more[|failures| + i], c, m[i])
    ensures Reported(c, lines, ids, k + 1, more, at + found)
  {
    hide NoPlace, Describes, Matching;
    DescribedAll(c, lines, failures, at, Matching(lines, ids[k]), found, more);
    NoneTwice(at, found);
    assert ids[..k + 1] == ids[..k] + [ids[k]];
    forall p: nat
      ensures p in at + found <==> p < |lines| && lines[p].classId in ids[..k + 1] && NoPlace(c, lines[p].classId)
    {
      assert p in at + found <==> p in at || p in found;
    }
  }

  lemma ReportedSkips(c: Cutoff, lines: seq<Line>, ids: seq<string>, k: nat, failures: seq<Failure>, at: seq<nat>)
    requires k < |ids| && Reported(c, lines, ids, k, failures, at) && !NoPlace(c, ids[k])
    ensures Reported(c, lines, ids, k + 1, failures, at)
  {
    hide NoPlace, Describes;
    assert ids[..k + 1] == ids[..k] + [ids[k]];
  }

  /** No failure exactly when every class of the cart has a place left; otherwise each line of each class without
      one is reported once, and nothing else. `at` gives the position of the line each failure describes. */
  method VerifyPostCartCreateCapacityCutoff(c: Cutoff, lines: seq<Line>)
    returns (failures: seq<Failure>, ghost at: seq<nat>)
    ensures failures == [] <==> forall p :: 0 <= p < |lines| ==> !NoPlace(c, lines[p].classId)
    ensures |at| == |failures| && forall i, j :: 0 <= i < j < |at| ==> at[i] != at[j]
    ensures forall i :: 0 <= i < |at| ==> at[i] < |lines| && Describes(failures[i], c, lines[at[i]])
    ensures forall p: nat :: p in at <==> p < |lines| && NoPlace(c, lines[p].classId)
  {
    hide HasPlace, NoPlace, Describes, Reported;
    var ids := DistinctIds(lines);
    failures, at := [], [];
    NothingReported(c, lines, ids);
    var k := 0;
    while k < |ids|
      invariant 0 <= k <= |ids| && Reported(c, lines, ids, k, failures, at)
    {
      NoPlaceExactly(c, ids[k]);
      if !HasPlace(c, ids[k]) {
        var more := AppendFailures(c, Matching(lines, ids[k]), failures);
        ghost var found := MatchingPositions(lines, |lines|, ids[k]);
        assert lines[..|lines|] == lines;
        ReportedStep(c, lines, ids, k, failures, at, more, found);
        at := at + found;
        failures := more;
      } else {
        ReportedSkips(c, lines, ids, k, failures, at);
      }
      k := k + 1;
    }
    ReportedDecides(c, lines, failures, at);
  }

  lemma NothingReported(c: Cutoff, lines: seq<Line>, ids: seq<string>)
    ensures Reported(c, lines, ids, 0, [], [])
  {
  }

  lemma ReportedDecides(c: Cutoff, lines: seq<Line>, failures: seq<Failure>, at: seq<nat>)
    requires Reported(c, lines, DistinctIds(lines), |DistinctIds(lines)|, failures, at)
    ensures |at| == |failures| && forall i, j :: 0 <= i < j < |at| ==> at[i] != at[j]
    ensures forall i :: 0 <= i < |at| ==> at[i] < |lines| && Describes(failures[i], c, lines[at[i]])
    ensures forall p: nat :: p in at <==> p < |lines| && NoPlace(c, lines[p].classId)
    ensures failures == [] <==> forall p :: 0 <= p < |lines| ==> !NoPlace(c, lines[p].classId)
  {
    hide NoPlace, Describes;
    var ids := DistinctIds(lines);
    assert ids[..|ids|] == ids;
    if failures != [] {
      assert at[0] in at;
    }
  }

  lemma PassesExactly(c: Cutoff, lines: seq<Line>)
    ensures Passes(c, lines) <==> forall p :: 0 <= p < |lines| ==> !NoPlace(c, lines[p].classId)
  {
    hide HasPlace, NoPlace;
    forall p | 0 <= p < |lines| ensures NoPlace(c, lines[p].classId) <==> !HasPlace(c, lines[p].classId) {
      NoPlaceExactly(c, lines[p].classId);
    }
  }

  predicate Passes(c: Cutoff, lines: seq<Line>) {
    forall i :: 0 <= i < |lines| ==> HasPlace(c, lines[i].classId)
  }

  // ---------------------------------------------------------------------------
  // What passing is worth
  // ---------------------------------------------------------------------------

  /** Every class has places for all of the cart's lines. */
  predicate Fits(c: Cutoff, lines: seq<Line>) {
    forall i :: 0 <= i < |lines| ==>
      Placed(c, lines[i].classId) + |Matching(lines, lines[i].classId)| <= CapacityOf(c, lines[i].classId)
  }

  predicate ClassesDistinct(lines: seq<Line>) {
    forall i, j :: 0 <= i < j < |lines| ==> lines[i].classId != lines[j].classId
  }

  ghost predicate AlwaysFits(lines: seq<Line>) {
    forall c: Cutoff :: Passes(c, lines) ==> Fits(c, lines)
  }

  lemma {:induction false} MatchCount(lines: seq<Line>, id: string)
    ensures ClassesDistinct(lines) ==> |Matching(lines, id)| <= 1
    ensures (forall i :: 0 <= i < |lines| ==> lines[i].classId != id) ==> Matching(lines, id) == []
    decreases |lines|
  {
    if lines != [] {
      var n := |lines| - 1;
      assert forall i :: 0 <= i < n ==> lines[..n][i] == lines[i];
      MatchCount(lines[..n], id);
    }
  }

  lemma {:induction false} RepeatCount(lines: seq<Line>, i: nat, j: nat)
    requires i < j < |lines| && lines[i].classId == lines[j].classId
    ensures |Matching(lines, lines[i].classId)| >= 2
    decreases |lines|
  {
    var n := |lines| - 1;
    if j < n {
      RepeatCount(lines[..n], i, j);
    } else {
      MatchingAre(lines[..n], lines[i].classId, lines[i]);
      assert lines[..n][i] in lines[..n];
    }
  }

  /** For one line a class: a place left is a place for the line. */
  lemma SingleLinesFit(c: Cutoff, lines: seq<Line>)
    requires ClassesDistinct(lines) && Passes(c, lines)
    ensures Fits(c, lines)
  {
    forall i | 0 <= i < |lines|
      ensures Placed(c, lines[i].classId) + |Matching(lines, lines[i].classId)| <= CapacityOf(c, lines[i].classId)
    {
      assert HasPlace(c, lines[i].classId);
      MatchCount(lines, lines[i].classId);
    }
  }

  /** With a class twice in the cart, one place left is enough to pass. */
  lemma RepeatedClassOverfills(lines: seq<Line>, i: nat, j: nat) returns (c: Cutoff)
    requires i < j < |lines| && lines[i].classId == lines[j].classId
    ensures Passes(c, lines) && !Fits(c, lines)
  {
    var ids := set line | line in lines :: line.classId;
    c := Cutoff("organization", "festival", map id | id in ids :: Class("organization", "festival", true, 1), map[]);
    RepeatCount(lines, i, j);
    assert forall k :: 0 <= k < |lines| ==> lines[k] in lines && lines[k].classId in ids;
    assert Placed(c, lines[i].classId) + |Matching(lines, lines[i].classId)| > CapacityOf(c, lines[i].classId);
  }

  /** Passing means that the cart fits, whatever the capacities and counts, exactly for carts that have no
      class twice. */
  lemma CutoffIsSafeExactlyForSingleLines(lines: seq<Line>)
    ensures AlwaysFits(lines) <==> ClassesDistinct(lines)
  {
    if ClassesDistinct(lines) {
      forall c: Cutoff | Passes(c, lines) ensures Fits(c, lines) {
        SingleLinesFit(c, lines);
      }
    } else {
      var i, j :| 0 <= i < j < |lines| && lines[i].classId == lines[j].classId;
      var c := RepeatedClassOverfills(lines, i, j);
    }
  }
}
