/** The grade-component seeder: for every subject, a fixed two-level tree of
    weighted grade components whose root weights total 100, built by splitting
    a parent's weight evenly over its named children. */
module GradeComponentSeeder {
  import opened Wrappers
  import opened Entities
  import Text
  import Seqs

  /** A grade component as the seeder fills it in; a root has no parent. */
  datatype GradeComponent = GradeComponent(
    id: Id,
    name: string,
    weightPercent: int,
    subjectId: Id,
    parentId: Option<Id>)
  {
    predicate IsRoot() {
      parentId.None?
    }
  }

  /** Reading `SubjectCode.Contains` on a subject whose code is null throws. */
  datatype SeedError = NullSubjectCode(subjectId: Id)

  // ---------------------------------------------------------------------
  // C# integer division
  // ---------------------------------------------------------------------

  /** C# `a / n` on `int`: rounds toward zero. */
  function TruncDiv(a: int, n: int): int
    requires n > 0
  {
    if a >= 0 then a / n else -((-a) / n)
  }

  /** C# `a % n` on `int`: takes the sign of the dividend. */
  function TruncRem(a: int, n: int): int
    requires n > 0
  {
    if a >= 0 then a % n else -((-a) % n)
  }

  // ---------------------------------------------------------------------
  // Weight lists
  // ---------------------------------------------------------------------

  function Sum(ws: seq<int>): int {
    if |ws| == 0 then 0 else Sum(ws[..|ws| - 1]) + ws[|ws| - 1]
  }

  function Weights(cs: seq<GradeComponent>): seq<int> {
    seq(|cs|, i requires 0 <= i < |cs| => cs[i].weightPercent)
  }

  /** `count` shares of `base`, the first `extra` of which get one point more. */
  function Shares(base: int, extra: int, count: nat): seq<int> {
    seq(count, i => base + (if i < extra then 1 else 0))
  }

  /** The child weights `CreateChildComponents` hands out for a parent weight
      split over `count` children. */
  function ChildWeights(weight: int, count: nat): seq<int>
    requires count > 0
  {
    Shares(TruncDiv(weight, count), TruncRem(weight, count), count)
  }

  /** How many shares receive the extra point. */
  function Bonus(extra: int, count: nat): nat {
    if extra <= 0 then 0 else if extra >= count then count else extra
  }

  lemma {:induction false} SumShares(base: int, extra: int, count: nat)
    ensures Sum(Shares(base, extra, count)) == count * base + Bonus(extra, count)
  {
    if count > 0 {
      SumShares(base, extra, count - 1);
      assert Shares(base, extra, count)[..count - 1] == Shares(base, extra, count - 1);
      assert count * base == (count - 1) * base + base;
    }
  }

  /** An even split of `weight`: the parts total `weight`, never increase
      along the list, and the first and last differ by at most one. */
  ghost predicate IsBalancedSplit(ws: seq<int>, weight: int) {
    && Sum(ws) == weight
    && (forall i, j :: 0 <= i <= j < |ws| ==> ws[j] <= ws[i])
    && (|ws| > 0 ==> ws[0] <= ws[|ws| - 1] + 1)
  }

  /** A non-negative weight is conserved by the split, and the split is even. */
  lemma SplitIsBalanced(weight: int, count: nat)
    requires weight >= 0 && count > 0
    ensures IsBalancedSplit(ChildWeights(weight, count), weight)
  {
    SumShares(weight / count, weight % count, count);
  }

  /** There is only one even split of a non-negative weight into a given
      number of parts, and it is the one `CreateChildComponents` computes. */
  lemma BalancedSplitIsUnique(ws: seq<int>, weight: int)
    requires weight >= 0 && |ws| > 0
    requires IsBalancedSplit(ws, weight)
    ensures ws == ChildWeights(weight, |ws|)
  {
    var n := |ws|;
    var m := ws[n - 1];
    // k: the number of leading parts that are one above the last part
    var k := FirstAt(ws, m);
    assert ws == Shares(m, k, n) by {
      forall i | 0 <= i < n
        ensures ws[i] == Shares(m, k, n)[i]
      {
        if i < k {
          assert ws[i] != m && m <= ws[i] <= ws[0] <= m + 1;
        } else {
          assert m <= ws[i] <= ws[k];
        }
      }
    }
    SumShares(m, k, n);
    assert weight == n * m + k;
    DivUnique(weight, n, m, k);
  }

  /** The index of the first occurrence of `x`, which is known to occur. */
  function FirstAt(ws: seq<int>, x: int): (k: nat)
    requires x in ws
    ensures k < |ws| && ws[k] == x
    ensures forall i :: 0 <= i < k ==> ws[i] != x
  {
    if ws[0] == x then 0 else 1 + FirstAt(ws[1..], x)
  }

  lemma DivUnique(a: int, n: int, q: int, r: int)
    requires a >= 0 && n > 0 && 0 <= r < n && a == n * q + r
    ensures a / n == q && a % n == r
  {
    var q', r' := a / n, a % n;
    if q > q' {
      MulMonotone(n, q' + 1, q);
      assert false;
    } else if q < q' {
      MulMonotone(n, q + 1, q');
      assert false;
    }
  }

  lemma MulMonotone(n: int, x: int, y: int)
    requires n > 0 && x <= y
    ensures n * x <= n * y
  {
  }

  /** For a negative weight the truncated remainder is never positive, so
      every child gets the truncated quotient, and the children fall short of
      the parent by that remainder: a negative weight that the child count
      does not divide is not conserved. */
  lemma SplitOfNegativeWeight(weight: int, count: nat)
    requires weight < 0 && count > 0
    ensures forall i :: 0 <= i < count ==> ChildWeights(weight, count)[i] == TruncDiv(weight, count)
    ensures Sum(ChildWeights(weight, count)) == count * TruncDiv(weight, count)
    ensures Sum(ChildWeights(weight, count)) == weight - TruncRem(weight, count)
    ensures Sum(ChildWeights(weight, count)) == weight <==> TruncRem(weight, count) == 0
  {
    SumShares(TruncDiv(weight, count), TruncRem(weight, count), count);
  }

  // ---------------------------------------------------------------------
  // CreateChildComponents
  // ---------------------------------------------------------------------

  /** One child per name, in the given order, each of the subject and under
      `parent`, with fresh keys `nextId`, `nextId + 1`, ...; a null or empty
      name list gives no children. */
  function CreateChildComponents(
    parent: GradeComponent, subjectId: Id, childNames: Option<seq<string>>, nextId: Id
  ): (r: seq<GradeComponent>)
    ensures childNames.None? ==> r == []
    ensures childNames.Some? ==> |r| == |childNames.value|
    ensures forall i :: 0 <= i < |r| ==>
      && r[i].id == nextId + i
      && r[i].name == childNames.value[i]
      && r[i].subjectId == subjectId
      && r[i].parentId == Some(parent.id)
  {
    match childNames
    case None => []
    case Some(names) =>
      if |names| == 0 then []
      else
        var ws := ChildWeights(parent.weightPercent, |names|);
        seq(|names|, i requires 0 <= i < |names| =>
          GradeComponent(nextId + i, names[i], ws[i], subjectId, Some(parent.id)))
  }

  /** The children of a parent with a non-negative weight split it evenly:
      their weights total the parent's, the remainder points go to the
      front, and no two children differ by more than one. */
  lemma ChildrenSplitParentWeight(
    parent: GradeComponent, subjectId: Id, childNames: seq<string>, nextId: Id)
    requires |childNames| > 0 && parent.weightPercent >= 0
    ensures var r := CreateChildComponents(parent, subjectId, Some(childNames), nextId);
      IsBalancedSplit(Weights(r), parent.weightPercent)
  {
    var r := CreateChildComponents(parent, subjectId, Some(childNames), nextId);
    assert Weights(r) == ChildWeights(parent.weightPercent, |childNames|);
    SplitIsBalanced(parent.weightPercent, |childNames|);
  }

  // ---------------------------------------------------------------------
  // Per-subject template
  // ---------------------------------------------------------------------

  /** Lab and project subjects: the code contains "LAB" or "PRJ" anywhere,
      case-sensitively. */
  predicate IsPractical(code: string) {
    Text.Contains(code, "LAB") || Text.Contains(code, "PRJ")
  }

  /** The test is containment, not a prefix test, and it is case-sensitive. */
  lemma PracticalIsCaseSensitiveContainment()
    ensures IsPractical("ENGLAB1")
    ensures IsPractical("SWPRJ301")
    ensures !IsPractical("lab101")
  {
    assert Text.OccursAt("ENGLAB1", "LAB", 3);
    assert Text.OccursAt("SWPRJ301", "PRJ", 2);
    var lower := "lab101";
    forall i | 0 <= i <= |lower| - 3
      ensures !Text.OccursAt(lower, "LAB", i) && !Text.OccursAt(lower, "PRJ", i)
    {
      assert lower[i..i + 3][0] == lower[i] != 'L';
      assert lower[i] != 'P';
    }
  }

  /** An occurrence stays an occurrence when text is put around the string. */
  lemma OccursInContext(pre: string, code: string, post: string, p: string, i: int)
    requires Text.OccursAt(code, p, i)
    ensures Text.OccursAt(pre + code + post, p, |pre| + i)
  {
    var s := pre + code + post;
    assert s[|pre| + i..|pre| + i + |p|] == code[i..i + |p|];
  }

  /** Containment anywhere decides the branch: a lab/project code stays one
      whatever is put before or after it. */
  lemma PracticalInAnyContext(pre: string, code: string, post: string)
    requires IsPractical(code)
    ensures IsPractical(pre + code + post)
  {
    if Text.Contains(code, "LAB") {
      var i :| Text.OccursAt(code, "LAB", i);
      OccursInContext(pre, code, post, "LAB", i);
    } else {
      var i :| Text.OccursAt(code, "PRJ", i);
      OccursInContext(pre, code, post, "PRJ", i);
    }
  }

  /** The test is case-sensitive: a code without the capitals 'L' and 'P'
      is never a lab/project code, whatever its letters spell up to case. */
  lemma NoCapitalsNotPractical(code: string)
    requires forall i :: 0 <= i < |code| ==> code[i] != 'L' && code[i] != 'P'
    ensures !IsPractical(code)
  {
    forall i | 0 <= i <= |code| - 3
      ensures !Text.OccursAt(code, "LAB", i) && !Text.OccursAt(code, "PRJ", i)
    {
      assert code[i..i + 3][0] == code[i];
    }
  }

  function Root(id: Id, name: string, weight: int, subjectId: Id): GradeComponent {
    GradeComponent(id, name, weight, subjectId, None)
  }

  /** The number of components the template gives a subject. */
  function BlockSize(code: string): nat {
    if IsPractical(code) then 5 else 7
  }

  /** The components one subject receives, keyed from `nextId`. */
  function SubjectComponents(subjectId: Id, code: string, nextId: Id): (r: seq<GradeComponent>)
    ensures |r| == BlockSize(code)
  {
    if IsPractical(code) then
      var lab := Root(nextId, "Lab Exercises", 30, subjectId);
      [lab]
      + CreateChildComponents(lab, subjectId, Some(["Lab 1", "Lab 2"]), nextId + 1)
      + [Root(nextId + 3, "Midterm Exam", 30, subjectId)]
      + [Root(nextId + 4, "Final Exam", 40, subjectId)]
    else
      var assignments := Root(nextId, "Assignments", 20, subjectId);
      var progressTests := Root(nextId + 3, "Progress Tests", 30, subjectId);
      [assignments]
      + CreateChildComponents(assignments, subjectId, Some(["Assignment 1", "Assignment 2"]), nextId + 1)
      + [progressTests]
      + CreateChildComponents(progressTests, subjectId, Some(["Progress Test 1", "Progress Test 2"]), nextId + 4)
      + [Root(nextId + 6, "Final Exam", 50, subjectId)]
  }

  function Names(cs: seq<GradeComponent>): seq<string> {
    seq(|cs|, i requires 0 <= i < |cs| => cs[i].name)
  }

  function ParentIds(cs: seq<GradeComponent>): seq<Option<Id>> {
    seq(|cs|, i requires 0 <= i < |cs| => cs[i].parentId)
  }

  /** The lab/project template, with the child weights the split yields. */
  lemma PracticalTemplate(subjectId: Id, code: string, nextId: Id)
    requires IsPractical(code)
    ensures SubjectComponents(subjectId, code, nextId) == [
      Root(nextId, "Lab Exercises", 30, subjectId),
      GradeComponent(nextId + 1, "Lab 1", 15, subjectId, Some(nextId)),
      GradeComponent(nextId + 2, "Lab 2", 15, subjectId, Some(nextId)),
      Root(nextId + 3, "Midterm Exam", 30, subjectId),
      Root(nextId + 4, "Final Exam", 40, subjectId)]
  {
    assert ChildWeights(30, 2) == [15, 15];
  }

  /** The theory template, with the child weights the split yields. */
  lemma TheoryTemplate(subjectId: Id, code: string, nextId: Id)
    requires !IsPractical(code)
    ensures SubjectComponents(subjectId, code, nextId) == [
      Root(nextId, "Assignments", 20, subjectId),
      GradeComponent(nextId + 1, "Assignment 1", 10, subjectId, Some(nextId)),
      GradeComponent(nextId + 2, "Assignment 2", 10, subjectId, Some(nextId)),
      Root(nextId + 3, "Progress Tests", 30, subjectId),
      GradeComponent(nextId + 4, "Progress Test 1", 15, subjectId, Some(nextId + 3)),
      GradeComponent(nextId + 5, "Progress Test 2", 15, subjectId, Some(nextId + 3)),
      Root(nextId + 6, "Final Exam", 50, subjectId)]
  {
    assert ChildWeights(20, 2) == [10, 10];
    assert ChildWeights(30, 2) == [15, 15];
  }

  // ---------------------------------------------------------------------
  // Forest invariants
  // ---------------------------------------------------------------------

  /** Keys are drawn in list order: the component at index i has key nextId + i. */
  predicate KeysFrom(cs: seq<GradeComponent>, nextId: Id) {
    forall i :: 0 <= i < |cs| ==> cs[i].id == nextId + i
  }

  /** The component at index i, if a child, has as parent a root of the
      same subject listed before it. */
  predicate ParentLinkOk(cs: seq<GradeComponent>, nextId: Id, i: nat)
    requires i < |cs|
  {
    cs[i].parentId.Some? ==>
      var p := cs[i].parentId.value;
      && nextId <= p < nextId + i
      && cs[p - nextId].IsRoot()
      && cs[p - nextId].subjectId == cs[i].subjectId
  }

  /** Every child's parent is a root of the same subject listed before it.
      With `KeysFrom`, this rules out self-parenting, cycles, dangling
      parent keys and any depth beyond two. */
  predicate ParentsPrecede(cs: seq<GradeComponent>, nextId: Id) {
    forall i :: 0 <= i < |cs| ==> ParentLinkOk(cs, nextId, i)
  }

  /** The weight of each component that is a child of `parent`, 0 for the others. */
  function ChildWeightList(cs: seq<GradeComponent>, parent: Id): seq<int> {
    seq(|cs|, i requires 0 <= i < |cs| =>
      if cs[i].parentId == Some(parent) then cs[i].weightPercent else 0)
  }

  /** The total weight of the children of the component keyed `parent`. */
  function ChildWeightSum(cs: seq<GradeComponent>, parent: Id): int {
    Sum(ChildWeightList(cs, parent))
  }

  /** The parent of the component at index i, if listed, has its weight
      exactly spread over its children. */
  predicate BalancedAt(cs: seq<GradeComponent>, nextId: Id, i: nat)
    requires i < |cs|
  {
    cs[i].parentId.Some? ==>
      var p := cs[i].parentId.value;
      nextId <= p < nextId + |cs| ==> ChildWeightSum(cs, p) == cs[p - nextId].weightPercent
  }

  /** Every component that has children has exactly its own weight spread over them. */
  predicate ChildrenBalance(cs: seq<GradeComponent>, nextId: Id) {
    forall i :: 0 <= i < |cs| ==> BalancedAt(cs, nextId, i)
  }

  /** The weight of each parentless component of the subject, 0 for the others. */
  function RootWeightList(cs: seq<GradeComponent>, subjectId: Id): seq<int> {
    seq(|cs|, i requires 0 <= i < |cs| =>
      if cs[i].IsRoot() && cs[i].subjectId == subjectId then cs[i].weightPercent else 0)
  }

  /** The total weight of the parentless components of a subject. */
  function RootWeight(cs: seq<GradeComponent>, subjectId: Id): int {
    Sum(RootWeightList(cs, subjectId))
  }

  predicate AllOfSubject(cs: seq<GradeComponent>, subjectId: Id) {
    forall i :: 0 <= i < |cs| ==> cs[i].subjectId == subjectId
  }

  /** A block of one subject: fresh keys from `nextId`, all of the subject,
      parents before children, every parent covered by its children, and
      roots weighing 100 in total. */
  predicate WellFormedBlock(cs: seq<GradeComponent>, subjectId: Id, nextId: Id) {
    && KeysFrom(cs, nextId)
    && AllOfSubject(cs, subjectId)
    && ParentsPrecede(cs, nextId)
    && ChildrenBalance(cs, nextId)
    && RootWeight(cs, subjectId) == 100
  }

  lemma {:induction false} SumAppend(a: seq<int>, b: seq<int>)
    ensures Sum(a + b) == Sum(a) + Sum(b)
    decreases |b|
  {
    if |b| > 0 {
      assert (a + b)[..|a + b| - 1] == a + b[..|b| - 1];
      SumAppend(a, b[..|b| - 1]);
    } else {
      assert a + b == a;
    }
  }

  lemma SumPrefixStep(ws: seq<int>, k: nat)
    requires 0 < k <= |ws|
    ensures Sum(ws[..k]) == Sum(ws[..k - 1]) + ws[k - 1]
  {
    assert ws[..k][..k - 1] == ws[..k - 1];
  }

  /** The sum of a list of five or seven weights, written out. */
  lemma SumOfSmall(ws: seq<int>)
    requires |ws| == 5 || |ws| == 7
    ensures |ws| == 5 ==> Sum(ws) == ws[0] + ws[1] + ws[2] + ws[3] + ws[4]
    ensures |ws| == 7 ==> Sum(ws) == ws[0] + ws[1] + ws[2] + ws[3] + ws[4] + ws[5] + ws[6]
  {
    assert ws[..|ws|] == ws;
    SumPrefixStep(ws, 1);
    SumPrefixStep(ws, 2);
    SumPrefixStep(ws, 3);
    SumPrefixStep(ws, 4);
    SumPrefixStep(ws, 5);
    if |ws| == 7 {
      SumPrefixStep(ws, 6);
      SumPrefixStep(ws, 7);
    }
  }

  lemma {:induction false} SumZeros(ws: seq<int>)
    requires forall i :: 0 <= i < |ws| ==> ws[i] == 0
    ensures Sum(ws) == 0
  {
    if |ws| > 0 {
      SumZeros(ws[..|ws| - 1]);
    }
  }

  lemma ChildWeightSumAppend(a: seq<GradeComponent>, b: seq<GradeComponent>, parent: Id)
    ensures ChildWeightSum(a + b, parent) == ChildWeightSum(a, parent) + ChildWeightSum(b, parent)
  {
    assert ChildWeightList(a + b, parent) == ChildWeightList(a, parent) + ChildWeightList(b, parent);
    SumAppend(ChildWeightList(a, parent), ChildWeightList(b, parent));
  }

  lemma RootWeightAppend(a: seq<GradeComponent>, b: seq<GradeComponent>, subjectId: Id)
    ensures RootWeight(a + b, subjectId) == RootWeight(a, subjectId) + RootWeight(b, subjectId)
  {
    assert RootWeightList(a + b, subjectId) == RootWeightList(a, subjectId) + RootWeightList(b, subjectId);
    SumAppend(RootWeightList(a, subjectId), RootWeightList(b, subjectId));
  }

  /** A component that is nobody's parent has no child weight. */
  lemma ChildWeightSumNone(cs: seq<GradeComponent>, parent: Id)
    requires forall i :: 0 <= i < |cs| ==> cs[i].parentId != Some(parent)
    ensures ChildWeightSum(cs, parent) == 0
  {
    SumZeros(ChildWeightList(cs, parent));
  }

  /** A subject none of whose components are listed has no root weight. */
  lemma RootWeightNone(cs: seq<GradeComponent>, subjectId: Id)
    requires forall i :: 0 <= i < |cs| ==> cs[i].subjectId != subjectId
    ensures RootWeight(cs, subjectId) == 0
  {
    SumZeros(RootWeightList(cs, subjectId));
  }

  /** One subject's block is a well-formed forest of that subject whose roots
      weigh 100 in total and whose parents are exactly covered by their children. */
  lemma SubjectComponentsWellFormed(subjectId: Id, code: string, nextId: Id)
    ensures WellFormedBlock(SubjectComponents(subjectId, code, nextId), subjectId, nextId)
  {
    if IsPractical(code) {
      PracticalWellFormed(subjectId, code, nextId);
    } else {
      TheoryWellFormed(subjectId, code, nextId);
    }
  }

  lemma PracticalWellFormed(subjectId: Id, code: string, nextId: Id)
    requires IsPractical(code)
    ensures WellFormedBlock(SubjectComponents(subjectId, code, nextId), subjectId, nextId)
  {
    PracticalTemplate(subjectId, code, nextId);
    PracticalShape(SubjectComponents(subjectId, code, nextId), subjectId, nextId,
      "Lab Exercises", "Lab 1", "Lab 2", "Midterm Exam", "Final Exam");
  }

  /** The lab/project shape is well formed whatever its names. */
  lemma PracticalShape(r: seq<GradeComponent>, subjectId: Id, nextId: Id, n0: string, n1: string, n2: string, n3: string, n4: string)
    requires r == [
      Root(nextId, n0, 30, subjectId),
      GradeComponent(nextId + 1, n1, 15, subjectId, Some(nextId)),
      GradeComponent(nextId + 2, n2, 15, subjectId, Some(nextId)),
      Root(nextId + 3, n3, 30, subjectId),
      Root(nextId + 4, n4, 40, subjectId)]
    ensures WellFormedBlock(r, subjectId, nextId)
  {
    assert RootWeightList(r, subjectId) == [30, 0, 0, 30, 40];
    assert ChildWeightList(r, nextId) == [0, 15, 15, 0, 0];
    SumOfSmall(RootWeightList(r, subjectId));
    SumOfSmall(ChildWeightList(r, nextId));
    assert ParentsPrecede(r, nextId) by {
      forall i | 0 <= i < |r| ensures ParentLinkOk(r, nextId, i) {
        assert r[i].parentId.Some? ==> i in {1, 2};
      }
    }
    assert ChildrenBalance(r, nextId) by {
      forall i | 0 <= i < |r| ensures BalancedAt(r, nextId, i) {
        assert r[i].parentId.Some? ==> r[i].parentId == Some(nextId);
      }
    }
  }

  lemma TheoryWellFormed(subjectId: Id, code: string, nextId: Id)
    requires !IsPractical(code)
    ensures WellFormedBlock(SubjectComponents(subjectId, code, nextId), subjectId, nextId)
  {
    TheoryTemplate(subjectId, code, nextId);
    TheoryShape(SubjectComponents(subjectId, code, nextId), subjectId, nextId,
      "Assignments", "Assignment 1", "Assignment 2", "Progress Tests",
      "Progress Test 1", "Progress Test 2", "Final Exam");
  }

  /** The theory shape is well formed whatever its names. */
  lemma TheoryShape(r: seq<GradeComponent>, subjectId: Id, nextId: Id,
                    n0: string, n1: string, n2: string, n3: string, n4: string, n5: string, n6: string)
    requires r == [
      Root(nextId, n0, 20, subjectId),
      GradeComponent(nextId + 1, n1, 10, subjectId, Some(nextId)),
      GradeComponent(nextId + 2, n2, 10, subjectId, Some(nextId)),
      Root(nextId + 3, n3, 30, subjectId),
      GradeComponent(nextId + 4, n4, 15, subjectId, Some(nextId + 3)),
      GradeComponent(nextId + 5, n5, 15, subjectId, Some(nextId + 3)),
      Root(nextId + 6, n6, 50, subjectId)]
    ensures WellFormedBlock(r, subjectId, nextId)
  {
    assert RootWeightList(r, subjectId) == [20, 0, 0, 30, 0, 0, 50];
    assert ChildWeightList(r, nextId) == [0, 10, 10, 0, 0, 0, 0];
    assert ChildWeightList(r, nextId + 3) == [0, 0, 0, 0, 15, 15, 0];
    SumOfSmall(RootWeightList(r, subjectId));
    SumOfSmall(ChildWeightList(r, nextId));
    SumOfSmall(ChildWeightList(r, nextId + 3));
    assert ParentsPrecede(r, nextId) by {
      forall i | 0 <= i < |r| ensures ParentLinkOk(r, nextId, i) {
        assert r[i].parentId.Some? ==> i in {1, 2, 4, 5};
      }
    }
    assert ChildrenBalance(r, nextId) by {
      forall i | 0 <= i < |r| ensures BalancedAt(r, nextId, i) {
        assert r[i].parentId.Some? ==> r[i].parentId == Some(nextId) || r[i].parentId == Some(nextId + 3);
      }
    }
  }

  // ---------------------------------------------------------------------
  // SeedAsync
  // ---------------------------------------------------------------------

  /** The per-subject block builder the loop applies: subject key, code, first key. */
  type Template = (Id, string, Id) -> seq<GradeComponent>

  predicate AllCodesPresent(subjects: seq<Subject>) {
    forall k :: 0 <= k < |subjects| ==> subjects[k].subjectCode.Some?
  }

  /** The foreach over the subjects for a block builder `template`: each
      subject's block in subject order, keys running on from block to block,
      or the exception of the first subject whose code is null. */
  function Build(template: Template, subjects: seq<Subject>, nextId: Id): Result<seq<GradeComponent>, SeedError> {
    if |subjects| == 0 then Success([])
    else
      match subjects[0].subjectCode
      case None => Failure(NullSubjectCode(subjects[0].id))
      case Some(code) =>
        var block := template(subjects[0].id, code, nextId);
        match Build(template, subjects[1..], nextId + |block|)
        case Failure(e) => Failure(e)
        case Success(rest) => Success(block + rest)
  }

  /** The seeder's own loop, with the fixed per-subject template. */
  function BuildComponents(subjects: seq<Subject>, nextId: Id): Result<seq<GradeComponent>, SeedError> {
    Build(SubjectComponents, subjects, nextId)
  }

  /** The components the seeder adds. Nothing is added when components
      already exist or there are no subjects. */
  function Seed(componentsExist: bool, subjects: seq<Subject>, nextId: Id): (r: Result<seq<GradeComponent>, SeedError>)
    ensures componentsExist || |subjects| == 0 ==> r == Success([])
    ensures !componentsExist && |subjects| > 0 ==> r == BuildComponents(subjects, nextId)
  {
    if componentsExist || |subjects| == 0 then Success([]) else BuildComponents(subjects, nextId)
  }

  lemma TailCodesPresent(subjects: seq<Subject>)
    requires |subjects| > 0 && AllCodesPresent(subjects)
    ensures AllCodesPresent(subjects[1..])
  {
    forall k | 0 <= k < |subjects| - 1 ensures subjects[1..][k].subjectCode.Some? {
      assert subjects[1..][k] == subjects[k + 1];
    }
  }

  lemma TailDistinct(subjects: seq<Subject>)
    requires |subjects| > 0 && DistinctSubjectIds(subjects)
    ensures DistinctSubjectIds(subjects[1..])
  {
    var tail := subjects[1..];
    forall i, j | 0 <= i < j < |tail| ensures tail[i].id != tail[j].id {
      assert tail[i] == subjects[i + 1] && tail[j] == subjects[j + 1];
    }
  }

  /** The seeding fails exactly when some subject code is null, and then
      with the first such subject. */
  lemma {:induction false} BuildFailsOnNullCode(template: Template, subjects: seq<Subject>, nextId: Id)
    ensures var r := Build(template, subjects, nextId);
      && (r.Failure? <==> !AllCodesPresent(subjects))
      && (r.Failure? ==>
            exists k :: (0 <= k < |subjects|
              && subjects[k].subjectCode.None?
              && AllCodesPresent(subjects[..k])
              && r.error == NullSubjectCode(subjects[k].id)))
  {
    if |subjects| > 0 {
      match subjects[0].subjectCode
      case None =>
        assert AllCodesPresent(subjects[..0]);
      case Some(code) =>
        var block := template(subjects[0].id, code, nextId);
        BuildFailsOnNullCode(template, subjects[1..], nextId + |block|);
        var r := Build(template, subjects, nextId);
        if AllCodesPresent(subjects[1..]) {
          assert AllCodesPresent(subjects) by {
            forall k | 0 < k < |subjects| ensures subjects[k].subjectCode.Some? {
              assert subjects[1..][k - 1] == subjects[k];
            }
          }
        } else {
          assert !AllCodesPresent(subjects) by {
            var k :| 0 <= k < |subjects[1..]| && subjects[1..][k].subjectCode.None?;
            assert subjects[k + 1] == subjects[1..][k];
          }
          var k :| 0 <= k < |subjects[1..]|
            && subjects[1..][k].subjectCode.None?
            && AllCodesPresent(subjects[1..][..k])
            && r.error == NullSubjectCode(subjects[1..][k].id);
          assert subjects[..k + 1] == [subjects[0]] + subjects[1..][..k];
          assert subjects[k + 1] == subjects[1..][k];
        }
    }
  }

  /** The offset of subject k's block in the output. */
  function Offset(template: Template, subjects: seq<Subject>, nextId: Id, k: nat): nat
    requires AllCodesPresent(subjects) && k <= |subjects|
  {
    if k == 0 then 0
    else
      var size := |template(subjects[0].id, subjects[0].subjectCode.value, nextId)|;
      size + Offset(template, subjects[1..], nextId + size, k - 1)
  }

  /** Subject k's block sits in `out` at its offset, keyed from there. */
  predicate BlockPlaced(template: Template, subjects: seq<Subject>, out: seq<GradeComponent>, nextId: Id, k: nat)
    requires AllCodesPresent(subjects) && k < |subjects|
  {
    var start := Offset(template, subjects, nextId, k);
    var block := template(subjects[k].id, subjects[k].subjectCode.value, nextId + start);
    && start + |block| <= |out|
    && out[start..start + |block|] == block
  }

  /** With every code present, the seeding succeeds and its output is the
      subjects' blocks in subject order, each keyed on from where the
      previous one stopped. */
  lemma {:induction false} BuildIsConcatenationOfBlocks(template: Template, subjects: seq<Subject>, nextId: Id)
    requires AllCodesPresent(subjects)
    ensures Build(template, subjects, nextId).Success?
    ensures |Build(template, subjects, nextId).value| == Offset(template, subjects, nextId, |subjects|)
    ensures forall k :: 0 <= k < |subjects| ==> BlockPlaced(template, subjects, Build(template, subjects, nextId).value, nextId, k)
  {
    if |subjects| > 0 {
      var block := template(subjects[0].id, subjects[0].subjectCode.value, nextId);
      var tail := subjects[1..];
      var m := nextId + |block|;
      TailCodesPresent(subjects);
      BuildIsConcatenationOfBlocks(template, tail, m);
      var rest := Build(template, tail, m).value;
      var out := block + rest;
      assert Build(template, subjects, nextId) == Success(out);
      forall k | 0 <= k < |subjects|
        ensures BlockPlaced(template, subjects, out, nextId, k)
      {
        if k == 0 {
          Seqs.SliceOfAppend(block, rest, 0, |block|);
        } else {
          BlockPlacedAfter(template, subjects, block, rest, nextId, k);
        }
      }
    }
  }

  /** A block placed in the output of the later subjects is placed in the
      whole output once the first subject's block is put in front. */
  lemma BlockPlacedAfter(template: Template, subjects: seq<Subject>, block: seq<GradeComponent>,
                         rest: seq<GradeComponent>, nextId: Id, k: nat)
    requires AllCodesPresent(subjects) && 0 < k < |subjects|
    requires AllCodesPresent(subjects[1..])
    requires block == template(subjects[0].id, subjects[0].subjectCode.value, nextId)
    requires BlockPlaced(template, subjects[1..], rest, nextId + |block|, k - 1)
    ensures BlockPlaced(template, subjects, block + rest, nextId, k)
  {
    var tail := subjects[1..];
    var start := Offset(template, subjects, nextId, k);
    assert start == |block| + Offset(template, tail, nextId + |block|, k - 1);
    assert subjects[k] == tail[k - 1];
    var len := |template(tail[k - 1].id, tail[k - 1].subjectCode.value, nextId + start)|;
    Seqs.SliceOfAppend(block, rest, start, start + len);
  }

  ghost predicate WellFormedTemplate(template: Template) {
    forall subjectId, code, nextId :: WellFormedBlock(template(subjectId, code, nextId), subjectId, nextId)
  }

  lemma SubjectComponentsIsWellFormedTemplate()
    ensures WellFormedTemplate(SubjectComponents)
  {
    forall subjectId, code, nextId
      ensures WellFormedBlock(SubjectComponents(subjectId, code, nextId), subjectId, nextId)
    {
      SubjectComponentsWellFormed(subjectId, code, nextId);
    }
  }

  lemma KeysFromAppend(a: seq<GradeComponent>, b: seq<GradeComponent>, nextId: Id)
    requires KeysFrom(a, nextId) && KeysFrom(b, nextId + |a|)
    ensures KeysFrom(a + b, nextId)
  {
    forall i | 0 <= i < |a + b| ensures (a + b)[i].id == nextId + i {
      if i >= |a| { assert (a + b)[i] == b[i - |a|]; }
    }
  }

  lemma ParentsPrecedeAppend(a: seq<GradeComponent>, b: seq<GradeComponent>, nextId: Id)
    requires ParentsPrecede(a, nextId) && ParentsPrecede(b, nextId + |a|)
    ensures ParentsPrecede(a + b, nextId)
  {
    var out := a + b;
    forall i | 0 <= i < |out|
      ensures ParentLinkOk(out, nextId, i)
    {
      if i < |a| {
        assert ParentLinkOk(a, nextId, i);
        assert out[i] == a[i];
        if a[i].parentId.Some? {
          var p := a[i].parentId.value;
          assert out[p - nextId] == a[p - nextId];
        }
      } else {
        var j := i - |a|;
        assert ParentLinkOk(b, nextId + |a|, j);
        assert out[i] == b[j];
        if b[j].parentId.Some? {
          var p := b[j].parentId.value;
          assert out[p - nextId] == b[p - (nextId + |a|)];
        }
      }
    }
  }

  /** A list whose parents precede their children names no parent outside its own keys. */
  lemma ParentKeysInRange(cs: seq<GradeComponent>, nextId: Id, parent: Id)
    requires ParentsPrecede(cs, nextId)
    requires parent < nextId || parent >= nextId + |cs|
    ensures ChildWeightSum(cs, parent) == 0
  {
    forall i | 0 <= i < |cs| ensures cs[i].parentId != Some(parent) {
      assert ParentLinkOk(cs, nextId, i);
    }
    ChildWeightSumNone(cs, parent);
  }

  lemma ChildrenBalanceAppend(a: seq<GradeComponent>, b: seq<GradeComponent>, nextId: Id)
    requires ParentsPrecede(a, nextId) && ChildrenBalance(a, nextId)
    requires ParentsPrecede(b, nextId + |a|) && ChildrenBalance(b, nextId + |a|)
    ensures ChildrenBalance(a + b, nextId)
  {
    var m := nextId + |a|;
    var out := a + b;
    forall i | 0 <= i < |out|
      ensures BalancedAt(out, nextId, i)
    {
      if out[i].parentId.Some? {
        var p := out[i].parentId.value;
        ChildWeightSumAppend(a, b, p);
        if i < |a| {
          assert out[i] == a[i];
          assert ParentLinkOk(a, nextId, i) && BalancedAt(a, nextId, i);
          ParentKeysInRange(b, m, p);
          assert out[p - nextId] == a[p - nextId];
        } else {
          var j := i - |a|;
          assert out[i] == b[j];
          assert ParentLinkOk(b, m, j) && BalancedAt(b, m, j);
          ParentKeysInRange(a, nextId, p);
          assert out[p - nextId] == b[p - m];
        }
      }
    }
  }

  /** Every component of `cs` belongs to one of the subjects. */
  predicate WithinSubjects(cs: seq<GradeComponent>, subjects: seq<Subject>) {
    forall i :: 0 <= i < |cs| ==> exists k :: 0 <= k < |subjects| && cs[i].subjectId == subjects[k].id
  }

  /** Every component a successful seeding yields belongs to one of the subjects. */
  lemma {:induction false} BuildStaysWithinSubjects(template: Template, subjects: seq<Subject>, nextId: Id)
    requires WellFormedTemplate(template)
    ensures Build(template, subjects, nextId).Success? ==> WithinSubjects(Build(template, subjects, nextId).value, subjects)
  {
    if |subjects| > 0 && subjects[0].subjectCode.Some? {
      var code := subjects[0].subjectCode.value;
      var block := template(subjects[0].id, code, nextId);
      var tail := subjects[1..];
      BuildStaysWithinSubjects(template, tail, nextId + |block|);
      var rr := Build(template, tail, nextId + |block|);
      assert WellFormedBlock(block, subjects[0].id, nextId);
      if rr.Success? {
        var rest := rr.value;
        var out := block + rest;
        assert Build(template, subjects, nextId) == Success(out);
        forall i | 0 <= i < |out|
          ensures exists k :: 0 <= k < |subjects| && out[i].subjectId == subjects[k].id
        {
          if i < |block| {
            assert out[i].subjectId == subjects[0].id;
          } else {
            assert out[i] == rest[i - |block|];
            var k :| 0 <= k < |tail| && rest[i - |block|].subjectId == tail[k].id;
            assert tail[k] == subjects[k + 1];
          }
        }
      }
    }
  }

  /** The components a successful seeding yields form a well-formed forest:
      fresh keys in list order, every child under an earlier root of its own
      subject, and every parent's weight exactly covered by its children. */
  lemma {:induction false} BuildIsWellFormed(template: Template, subjects: seq<Subject>, nextId: Id)
    requires WellFormedTemplate(template)
    ensures var r := Build(template, subjects, nextId);
      r.Success? ==>
        && KeysFrom(r.value, nextId)
        && ParentsPrecede(r.value, nextId)
        && ChildrenBalance(r.value, nextId)
  {
    if |subjects| > 0 && subjects[0].subjectCode.Some? {
      var code := subjects[0].subjectCode.value;
      var block := template(subjects[0].id, code, nextId);
      var m := nextId + |block|;
      BuildIsWellFormed(template, subjects[1..], m);
      var rr := Build(template, subjects[1..], m);
      assert WellFormedBlock(block, subjects[0].id, nextId);
      if rr.Success? {
        assert Build(template, subjects, nextId) == Success(block + rr.value);
        KeysFromAppend(block, rr.value, nextId);
        ParentsPrecedeAppend(block, rr.value, nextId);
        ChildrenBalanceAppend(block, rr.value, nextId);
      }
    }
  }

  /** For every subject, the parentless components seeded for it weigh 100 in total. */
  lemma {:induction false} BuildRootWeightsTotal100(template: Template, subjects: seq<Subject>, nextId: Id)
    requires WellFormedTemplate(template) && DistinctSubjectIds(subjects)
    ensures var r := Build(template, subjects, nextId);
      r.Success? ==> forall k :: 0 <= k < |subjects| ==> RootWeight(r.value, subjects[k].id) == 100
  {
    if |subjects| > 0 && subjects[0].subjectCode.Some? {
      var code := subjects[0].subjectCode.value;
      var block := template(subjects[0].id, code, nextId);
      var m := nextId + |block|;
      var tail := subjects[1..];
      TailDistinct(subjects);
      BuildRootWeightsTotal100(template, tail, m);
      BuildStaysWithinSubjects(template, tail, m);
      var rr := Build(template, tail, m);
      assert WellFormedBlock(block, subjects[0].id, nextId);
      if rr.Success? {
        var rest := rr.value;
        assert Build(template, subjects, nextId) == Success(block + rest);
        forall k | 0 <= k < |subjects|
          ensures RootWeight(block + rest, subjects[k].id) == 100
        {
          var sid := subjects[k].id;
          RootWeightAppend(block, rest, sid);
          if k == 0 {
            forall i | 0 <= i < |rest| ensures rest[i].subjectId != sid {
              var k' :| 0 <= k' < |tail| && rest[i].subjectId == tail[k'].id;
              assert tail[k'] == subjects[k' + 1];
            }
            RootWeightNone(rest, sid);
          } else {
            assert subjects[0].id != sid;
            RootWeightNone(block, sid);
            assert tail[k - 1] == subjects[k];
          }
        }
      }
    }
  }

  /** What the seeder adds: nothing when components exist or there are no
      subjects; otherwise the NullReferenceException of the first subject
      without a code, or a well-formed forest in which every subject's roots
      weigh 100. */
  lemma SeedOutcome(componentsExist: bool, subjects: seq<Subject>, nextId: Id)
    requires DistinctSubjectIds(subjects)
    ensures var r := Seed(componentsExist, subjects, nextId);
      && (componentsExist || |subjects| == 0 ==> r == Success([]))
      && (!componentsExist && |subjects| > 0 ==>
            && (r.Failure? <==> !AllCodesPresent(subjects))
            && (r.Success? ==>
                  && KeysFrom(r.value, nextId)
                  && ParentsPrecede(r.value, nextId)
                  && ChildrenBalance(r.value, nextId)
                  && forall k :: 0 <= k < |subjects| ==> RootWeight(r.value, subjects[k].id) == 100))
  {
    SubjectComponentsIsWellFormedTemplate();
    BuildFailsOnNullCode(SubjectComponents, subjects, nextId);
    BuildIsWellFormed(SubjectComponents, subjects, nextId);
    BuildRootWeightsTotal100(SubjectComponents, subjects, nextId);
  }
}
