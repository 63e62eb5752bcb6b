/**
 * Merkle commitments in which an odd level repeats its last digest, their membership proofs, and the verifier.
 * The source writes builder and verifier twice, for Graph pages and for activity pages; they differ in the leaf only.
 */
module Merkle {
  import opened Prelude

  /** A digest determines what was digested; text that no digest produced is `Foreign`. */
  datatype Hash<+L> = Leaf(content: L) | Branch(left: Hash<L>, right: Hash<L>) | Foreign(text: string)

  datatype Side = OnLeft | OnRight
  datatype Step<+L> = Step(side: Side, digest: Hash<L>)
  datatype Commitment<+L> = Commitment(root: Hash<L>, proofs: seq<seq<Step<L>>>)

  /** The level above: neighbours joined, the last one with itself when it has no neighbour. */
  function PairUp<L>(level: seq<Hash<L>>): (r: seq<Hash<L>>)
    ensures |r| == (|level| + 1) / 2
    ensures forall i | 0 <= i < |r| :: r[i] == Branch(level[2 * i], if 2 * i + 1 < |level| then level[2 * i + 1] else level[2 * i])
  {
    seq((|level| + 1) / 2, i requires 0 <= i < (|level| + 1) / 2 =>
      Branch(level[2 * i], if 2 * i + 1 < |level| then level[2 * i + 1] else level[2 * i]))
  }

  function Root<L>(level: seq<Hash<L>>): Hash<L>
    requires level != []
    decreases |level|
  {
    if |level| == 1 then level[0] else Root(PairUp(level))
  }

  function Levels<L>(level: seq<Hash<L>>): (r: seq<seq<Hash<L>>>)
    requires level != []
    ensures r != [] && r[0] == level
    decreases |level|
  {
    if |level| == 1 then [level] else [level] + Levels(PairUp(level))
  }

  /** How often a level of `n` digests is paired up before one digest is left. */
  function Depth(n: nat): nat {
    if n <= 1 then 0 else 1 + Depth((n + 1) / 2)
  }

  /** The sibling of position `i`; the last digest of an odd level is its own. */
  function Sibling<L>(level: seq<Hash<L>>, i: nat): Step<L>
    requires i < |level|
  {
    if i % 2 == 1 then Step(OnLeft, level[i - 1])
    else Step(OnRight, if i + 1 < |level| then level[i + 1] else level[|level| - 1])
  }

  function Siblings<L>(level: seq<Hash<L>>, i: nat): (r: seq<Step<L>>)
    requires i < |level|
    ensures |r| == Depth(|level|)
    decreases |level|
  {
    if |level| == 1 then [] else [Sibling(level, i)] + Siblings(PairUp(level), i / 2)
  }

  // ------------------------------------------------------------------ building

  method BuildLevel<L>(previous: seq<Hash<L>>) returns (next: seq<Hash<L>>)
    ensures next == PairUp(previous)
  {
    next := [];
    var index := 0;
    while index < |previous|
      invariant index == 2 * |next| && |next| <= (|previous| + 1) / 2
      invariant next == PairUp(previous)[..|next|]
    {
      next := next + [Branch(previous[index], if index + 1 < |previous| then previous[index + 1] else previous[index])];
      index := index + 2;
    }
  }

  method BuildLevels<L>(leaves: seq<Hash<L>>) returns (levels: seq<seq<Hash<L>>>)
    requires leaves != []
    ensures levels == Levels(leaves)
  {
    levels := [leaves];
    while |levels[|levels| - 1]| > 1
      invariant levels != [] && levels[|levels| - 1] != []
      invariant Levels(leaves) == levels[..|levels| - 1] + Levels(levels[|levels| - 1])
      decreases |levels[|levels| - 1]|
    {
      var previous := levels[|levels| - 1];
      var next := BuildLevel(previous);
      assert levels == levels[..|levels| - 1] + [previous];
      levels := levels + [next];
    }
  }

  lemma {:induction false} LevelsStep<L>(level: seq<Hash<L>>, k: nat)
    requires level != [] && k < |Levels(level)|
    ensures |Levels(level)| == Depth(|level|) + 1
    ensures Levels(level)[k] != []
    ensures k + 1 < |Levels(level)| <==> |Levels(level)[k]| > 1
    ensures k + 1 < |Levels(level)| ==> Levels(level)[k + 1] == PairUp(Levels(level)[k])
    ensures k + 1 == |Levels(level)| ==> Levels(level)[k] == [Root(level)]
    decreases |level|
  {
    if |level| > 1 {
      if k > 0 {
        LevelsStep(PairUp(level), k - 1);
      } else {
        LevelsStep(PairUp(level), 0);
      }
    }
  }

  lemma SiblingsStep<L>(leaves: seq<Hash<L>>, k: nat, i: nat, done: seq<Step<L>>)
    requires leaves != [] && k + 1 < |Levels(leaves)| && i < |Levels(leaves)[k]|
    ensures var level := Levels(leaves)[k];
            && |level| > 1 && i / 2 < |Levels(leaves)[k + 1]|
            && done + Siblings(level, i) == done + [Sibling(level, i)] + Siblings(Levels(leaves)[k + 1], i / 2)
  {
    LevelsStep(leaves, k);
  }

  method BuildProof<L>(leaves: seq<Hash<L>>, levels: seq<seq<Hash<L>>>, leafIndex: nat) returns (siblings: seq<Step<L>>)
    requires leaves != [] && levels == Levels(leaves) && leafIndex < |leaves|
    ensures siblings == Siblings(leaves, leafIndex)
  {
    siblings := [];
    var currentIndex: nat := leafIndex;
    for k := 0 to |levels| - 1
      invariant currentIndex < |levels[k]|
      invariant siblings + Siblings(levels[k], currentIndex) == Siblings(leaves, leafIndex)
    {
      SiblingsStep(leaves, k, currentIndex, siblings);
      var level := levels[k];
      var isRight := currentIndex % 2 == 1;
      var siblingIndex: nat := if isRight then currentIndex - 1 else if currentIndex + 1 < |level| - 1 then currentIndex + 1 else |level| - 1;
      siblings := siblings + [Step(if isRight then OnLeft else OnRight, level[siblingIndex])];
      currentIndex := currentIndex / 2;
    }
    LevelsStep(leaves, |levels| - 1);
  }

  /** Both commitment builders: the root and one proof for each leaf, refused when the proofs would be too long. */
  method BuildCommitment<L>(leaves: seq<Hash<L>>, maxSteps: nat) returns (r: Option<Commitment<L>>)
    requires leaves != []
    ensures r.Some? <==> Depth(|leaves|) <= maxSteps
    ensures r.Some? ==> r.value.root == Root(leaves) && |r.value.proofs| == |leaves|
    ensures r.Some? ==> forall i | 0 <= i < |leaves| :: r.value.proofs[i] == Siblings(leaves, i)
  {
    var levels := BuildLevels(leaves);
    LevelsStep(leaves, |levels| - 1);
    if |levels| - 1 > maxSteps {
      return None;
    }
    var proofs: seq<seq<Step<L>>> := [];
    for i := 0 to |leaves|
      invariant |proofs| == i && forall j | 0 <= j < i :: proofs[j] == Siblings(leaves, j)
    {
      var proof := BuildProof(leaves, levels, i);
      proofs := proofs + [proof];
    }
    return Some(Commitment(levels[|levels| - 1][0], proofs));
  }

  // ----------------------------------------------------------------- verifying

  /** One step up: the side must fit the position, and a digest without neighbour must be joined with itself. */
  predicate StepFits<L(==)>(current: Hash<L>, index: nat, count: nat, step: Step<L>) {
    && step.side == (if index % 2 == 1 then OnLeft else OnRight)
    && (index % 2 == 0 && index + 1 >= count ==> step.digest == current)
  }

  function Join<L>(current: Hash<L>, step: Step<L>): Hash<L> {
    if step.side.OnLeft? then Branch(step.digest, current) else Branch(current, step.digest)
  }

  predicate Leads<L(==)>(current: Hash<L>, index: nat, count: nat, steps: seq<Step<L>>, root: Hash<L>)
    decreases |steps|
  {
    if steps == [] then current == root
    else StepFits(current, index, count, steps[0]) && Leads(Join(current, steps[0]), index / 2, (count + 1) / 2, steps[1..], root)
  }

  predicate Accepts<L(==)>(leaf: Hash<L>, index: nat, count: nat, steps: seq<Step<L>>, root: Hash<L>, maxSteps: nat) {
    index < count && |steps| == Depth(count) && Depth(count) <= maxSteps && Leads(leaf, index, count, steps, root)
  }

  method ProofDepth(count: nat) returns (depth: nat)
    ensures depth == Depth(count)
  {
    depth := 0;
    var width := count;
    while width > 1
      invariant depth + Depth(width) == Depth(count)
    {
      depth := depth + 1;
      width := (width + 1) / 2;
    }
  }

  /** Both verifiers. */
  method VerifyMembership<L(==)>(leaf: Hash<L>, index: nat, count: nat, steps: seq<Step<L>>, root: Hash<L>, maxSteps: nat)
    returns (ok: bool)
    ensures ok <==> Accepts(leaf, index, count, steps, root, maxSteps)
  {
    if index >= count {
      return false;
    }
    var expectedDepth := ProofDepth(count);
    if |steps| != expectedDepth || expectedDepth > maxSteps {
      return false;
    }
    var current, at, width := leaf, index, count;
    assert steps[0..] == steps;
    for k := 0 to |steps|
      invariant Leads(leaf, index, count, steps, root) <==> Leads(current, at, width, steps[k..], root)
    {
      var step := steps[k];
      assert steps[k..][1..] == steps[k + 1..];
      if !StepFits(current, at, width, step) {
        return false;
      }
      current := Join(current, step);
      at := at / 2;
      width := (width + 1) / 2;
    }
    return current == root;
  }

  /** One level: the joined digest is the right one above exactly when the digest and its sibling are. */
  /** Where the path stands after `k` steps: its digest, its index there, and how many digests the level has. */
  function DigestAt<L>(leaf: Hash<L>, steps: seq<Step<L>>, k: nat): Hash<L>
    requires k <= |steps|
  {
    if k == 0 then leaf
    else
      var below := DigestAt(leaf, steps, k - 1);
      if steps[k - 1].side.OnLeft? then Branch(steps[k - 1].digest, below) else Branch(below, steps[k - 1].digest)
  }

  function IndexAt(index: nat, k: nat): nat {
    if k == 0 then index else IndexAt(index / 2, k - 1)
  }

  function CountAt(count: nat, k: nat): nat {
    if k == 0 then count else CountAt((count + 1) / 2, k - 1)
  }

  /** An odd digest is joined from the left, an even one from the right, the last of an odd level with itself. */
  ghost predicate StepsFit<L>(leaf: Hash<L>, index: nat, count: nat, steps: seq<Step<L>>) {
    forall k {:trigger steps[k]} | 0 <= k < |steps| ::
      && (steps[k].side == OnLeft <==> IndexAt(index, k) % 2 == 1)
      && (IndexAt(index, k) % 2 == 0 && IndexAt(index, k) + 1 >= CountAt(count, k) ==> steps[k].digest == DigestAt(leaf, steps, k))
  }

  lemma {:induction false} DigestShifts<L>(leaf: Hash<L>, steps: seq<Step<L>>, k: nat)
    requires steps != [] && k < |steps|
    ensures DigestAt(leaf, steps, k + 1) == DigestAt(Join(leaf, steps[0]), steps[1..], k)
  {
    if k > 0 {
      DigestShifts(leaf, steps, k - 1);
    }
  }

  lemma {:induction false} LeadsMeaning<L>(leaf: Hash<L>, index: nat, count: nat, steps: seq<Step<L>>, root: Hash<L>)
    ensures Leads(leaf, index, count, steps, root) <==> StepsFit(leaf, index, count, steps) && DigestAt(leaf, steps, |steps|) == root
    decreases |steps|
  {
    if steps != [] {
      var next, rest := Join(leaf, steps[0]), steps[1..];
      LeadsMeaning(next, index / 2, (count + 1) / 2, rest, root);
      DigestShifts(leaf, steps, |rest|);
      StepsShift(leaf, index, count, steps);
    }
  }

  lemma StepsShift<L>(leaf: Hash<L>, index: nat, count: nat, steps: seq<Step<L>>)
    requires steps != []
    ensures StepsFit(leaf, index, count, steps) <==>
            StepFits(leaf, index, count, steps[0]) && StepsFit(Join(leaf, steps[0]), index / 2, (count + 1) / 2, steps[1..])
  {
    var next, rest := Join(leaf, steps[0]), steps[1..];
    forall k | 0 <= k < |rest|
      ensures DigestAt(leaf, steps, k + 1) == DigestAt(next, rest, k) && steps[k + 1] == rest[k]
      ensures IndexAt(index, k + 1) == IndexAt(index / 2, k) && CountAt(count, k + 1) == CountAt((count + 1) / 2, k)
    {
      DigestShifts(leaf, steps, k);
    }
    assert forall k | 0 <= k < |steps| :: k == 0 || steps[k] == rest[k - 1];
  }

  /** What is accepted, against any root: as many steps as the level count has halvings, each as it must be, up to the root. */
  lemma AcceptsMeaning<L>(leaf: Hash<L>, index: nat, count: nat, steps: seq<Step<L>>, root: Hash<L>, maxSteps: nat)
    ensures Accepts(leaf, index, count, steps, root, maxSteps) <==>
            && index < count && |steps| == Depth(count) <= maxSteps
            && StepsFit(leaf, index, count, steps) && DigestAt(leaf, steps, |steps|) == root
  {
    LeadsMeaning(leaf, index, count, steps, root);
  }

  lemma StepIsForced<L>(level: seq<Hash<L>>, index: nat, current: Hash<L>, step: Step<L>)
    requires index < |level|
    ensures StepFits(current, index, |level|, step) && Join(current, step) == PairUp(level)[index / 2]
            <==> current == level[index] && step == Sibling(level, index)
  {
  }

  lemma {:induction false} OnlyBuiltProofLeads<L>(level: seq<Hash<L>>, index: nat, current: Hash<L>, steps: seq<Step<L>>)
    requires index < |level| && |steps| == Depth(|level|)
    ensures Leads(current, index, |level|, steps, Root(level)) <==> current == level[index] && steps == Siblings(level, index)
    decreases |level|
  {
    if |level| > 1 {
      StepIsForced(level, index, current, steps[0]);
      OnlyBuiltProofLeads(PairUp(level), index / 2, Join(current, steps[0]), steps[1..]);
      assert steps == [steps[0]] + steps[1..];
    }
  }

  /**
   * Against the root of a list of leaves, the verifier accepts a leaf and a proof at an index exactly when the leaf
   * is the one committed there and the proof is the one the builder made: complete, sound, and with no second proof.
   */
  lemma MembershipIsExact<L>(leaves: seq<Hash<L>>, leaf: Hash<L>, index: nat, steps: seq<Step<L>>, maxSteps: nat)
    requires leaves != [] && Depth(|leaves|) <= maxSteps
    ensures Accepts(leaf, index, |leaves|, steps, Root(leaves), maxSteps)
            <==> index < |leaves| && leaf == leaves[index] && steps == Siblings(leaves, index)
  {
    if index < |leaves| && |steps| == Depth(|leaves|) {
      OnlyBuiltProofLeads(leaves, index, leaf, steps);
    }
  }

  /** Lists of one length with one root are the same list. */
  lemma {:induction false} RootIsInjective<L>(a: seq<Hash<L>>, b: seq<Hash<L>>)
    requires a != [] && |a| == |b| && Root(a) == Root(b)
    ensures a == b
    decreases |a|
  {
    if |a| > 1 {
      RootIsInjective(PairUp(a), PairUp(b));
      forall i | 0 <= i < |a| ensures a[i] == b[i] {
        assert PairUp(a)[i / 2] == PairUp(b)[i / 2];
      }
    }
  }

  // -------------------------------------------------------------- proof lengths

  function Pow2(k: nat): nat {
    if k == 0 then 1 else 2 * Pow2(k - 1)
  }

  /** The depth is the rounded-up binary logarithm of the number of leaves. */
  lemma {:induction false} DepthIsCeilLog2(n: nat)
    requires n > 0
    ensures n <= Pow2(Depth(n)) && (Depth(n) > 0 ==> Pow2(Depth(n) - 1) < n)
  {
    if n > 1 {
      DepthIsCeilLog2((n + 1) / 2);
    }
  }

  lemma {:induction false} DepthWithin(n: nat, k: nat)
    requires n <= Pow2(k)
    ensures Depth(n) <= k
    decreases k
  {
    if n > 1 {
      DepthWithin((n + 1) / 2, k - 1);
    }
  }

  /** A Graph page of at most 300 Nodes never exceeds the nine-step bound, so that check never fires. */
  lemma GraphPageProofsFit(n: nat)
    requires n <= 300
    ensures Depth(n) <= 9
  {
    assert Pow2(9) == 2 * Pow2(8) && Pow2(8) == 4 * Pow2(6) && Pow2(6) == 4 * Pow2(4) && Pow2(4) == 4 * Pow2(2) && Pow2(2) == 4;
    DepthWithin(n, 9);
  }
}
