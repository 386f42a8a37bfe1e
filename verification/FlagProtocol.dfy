/** Chains whose tests are separated by straight-line code, folded with a local success flag. */
module FlagProtocol {
  import opened Lua51
  import opened GuardChains

  const MAX_GAP := 16
  const MAX_CANDIDATES := 128

  // ---------- gaps ----------

  /** A word with a fixed effect and no transfer of control; CLOSURE bindings count as part of their CLOSURE. */
  predicate GapSafe(i: Instr) {
    !i.extraWord && (i.binding || (i.op.Plain? && !i.open) || (i.op.LoadBool? && i.c == 0) || (i.op.SetList? && !i.open) || i.op.Closure?)
  }

  ghost predicate Gap(code: seq<Instr>, from: nat, to: nat) {
    && from <= to <= |code| && (from < to ==> Boundary(code, from)) && (to < |code| ==> Boundary(code, to))
    && forall pc {:trigger GapSafe(code[pc])} :: from <= pc < to ==> GapSafe(code[pc])
  }

  /** The effects of a gap, in order. */
  ghost function GapState<S>(code: seq<Instr>, sem: Sem<S>, from: nat, to: nat, s: S): S
    decreases to - from
  {
    if from >= to || from >= |code| then s
    else GapState(code, sem, from + Size(code[from]), to, sem.effect(from, s))
  }

  lemma {:induction false} GapRuns<S>(code: seq<Instr>, sem: Sem<S>, from: nat, to: nat, s: S)
    requires WellFormed(code) && Gap(code, from, to)
    ensures Leads(code, sem, At(from, s), At(to, GapState(code, sem, from, to, s)))
    decreases if from <= to then to - from else 0
  {
    if from == to {
      LeadsSelf(code, sem, At(from, s));
    } else {
      assert Tiled(code, from) && GapSafe(code[from]);
      var next := from + Size(code[from]);
      assert next <= to;
      LeadsStep(code, sem, from, s);
      GapRuns(code, sem, next, to, sem.effect(from, s));
      LeadsOn(code, sem, At(from, s), At(next, sem.effect(from, s)), At(to, GapState(code, sem, from, to, s)));
    }
  }

  // ---------- the shape ----------

  /**
   A primary test that jumps over its payload and a secondary test, which jumps to the shared join; `prefixBegin` is
   where the code before the primary test starts.
   */
  datatype Candidate = Candidate(prefixBegin: nat, primaryPc: nat, secondaryPc: nat)

  function NextBegin(c: Candidate): nat {
    c.secondaryPc + 2
  }

  ghost predicate CandidateOk(code: seq<Instr>, c: Candidate, join: nat) {
    && IsGuard(code, c.primaryPc) && IsGuard(code, c.secondaryPc)
    && Gap(code, c.prefixBegin, c.primaryPc) && Gap(code, c.primaryPc + 2, c.secondaryPc)
    && Boundary(code, c.primaryPc) && Boundary(code, c.secondaryPc)
    && code[c.primaryPc + 1].target == NextBegin(c) && code[c.secondaryPc + 1].target == join
  }

  /** Where the code after the first `k` candidates begins. */
  function BeginOf(cands: seq<Candidate>, pc: nat, k: nat): nat
    requires k <= |cands|
  {
    if k == 0 then pc else NextBegin(cands[k - 1])
  }

  ghost predicate CandidateHere(code: seq<Instr>, cands: seq<Candidate>, pc: nat, join: nat, k: nat)
    requires k < |cands|
  {
    CandidateOk(code, cands[k], join) && cands[k].prefixBegin == BeginOf(cands, pc, k)
  }

  ghost predicate CandidatesOk(code: seq<Instr>, cands: seq<Candidate>, pc: nat, join: nat) {
    && (|cands| > 0 ==> cands[0].primaryPc == pc)
    && forall k: nat {:trigger CandidateHere(code, cands, pc, join, k)} :: k < |cands| ==> CandidateHere(code, cands, pc, join, k)
  }

  ghost predicate GuardedShape(code: seq<Instr>, pc: nat, end: nat, cands: seq<Candidate>, join: nat) {
    && |cands| > 0 && CandidatesOk(code, cands, pc, join) && join <= end <= |code|
    && Gap(code, BeginOf(cands, pc, |cands|), join)
  }

  lemma CandidateAt(code: seq<Instr>, pc: nat, end: nat, cands: seq<Candidate>, join: nat, k: nat)
    requires GuardedShape(code, pc, end, cands, join) && k < |cands|
    ensures CandidateOk(code, cands[k], join) && cands[k].prefixBegin == BeginOf(cands, pc, k)
  {
    assert CandidateHere(code, cands, pc, join, k);
  }

  // ---------- finding the shape ----------

  /** The guard behind at most `left` safe words, or -1. */
  function Seek(code: seq<Instr>, begin: nat, end: nat, left: nat): int
    requires end <= |code|
    decreases left
  {
    if begin < end && left > 0 && GapSafe(code[begin]) then Seek(code, begin + 1, end, left - 1)
    else if begin + 1 < end && IsGuard(code, begin) then begin
    else -1
  }

  /** What is found is a guard behind a gap. */
  lemma {:induction false} SeekIsGuard(code: seq<Instr>, begin: nat, end: nat, left: nat)
    requires WellFormed(code) && begin <= end <= |code| && Seek(code, begin, end, left) >= 0
    ensures var f := Seek(code, begin, end, left);
      begin <= f && f + 1 < end && IsGuard(code, f) && Boundary(code, f) && SafeRange(code, begin, f)
    decreases left
  {
    if begin < end && left > 0 && GapSafe(code[begin]) {
      SeekIsGuard(code, begin + 1, end, left - 1);
    }
  }

  /** A guard in the range, behind at most `left` safe words. */
  ghost predicate GuardBehindGap(code: seq<Instr>, begin: nat, end: nat, left: nat, f: nat)
    requires end <= |code|
  {
    begin <= f && f + 1 < end && f - begin <= left && IsGuard(code, f) && SafeRange(code, begin, f)
  }

  /** There is at most one such guard, and it is found: whatever stands behind a short gap, and nothing else. */
  lemma {:induction false} SeekIff(code: seq<Instr>, begin: nat, end: nat, left: nat, f: nat)
    requires WellFormed(code) && begin <= end <= |code|
    ensures Seek(code, begin, end, left) == f <==> GuardBehindGap(code, begin, end, left, f)
    decreases left
  {
    if begin < end && left > 0 && GapSafe(code[begin]) {
      SeekIff(code, begin + 1, end, left - 1, f);
      if GuardBehindGap(code, begin, end, left, f) {
        GuardIsUnsafe(code, f);
      }
    } else if begin < f <= |code| && SafeRange(code, begin, f) {
      assert GapSafe(code[begin]);
    }
  }

  lemma GuardIsUnsafe(code: seq<Instr>, f: nat)
    requires WellFormed(code) && IsGuard(code, f)
    ensures f < |code| && !GapSafe(code[f])
  {
  }

  /** No guard is found exactly if none stands behind a short gap. */
  lemma SeekNoneIff(code: seq<Instr>, begin: nat, end: nat, left: nat)
    requires WellFormed(code) && begin <= end <= |code|
    ensures Seek(code, begin, end, left) == -1 <==> forall f: nat :: !GuardBehindGap(code, begin, end, left, f)
  {
    var found := Seek(code, begin, end, left);
    if found == -1 {
      forall f: nat ensures !GuardBehindGap(code, begin, end, left, f) {
        SeekIff(code, begin, end, left, f);
      }
    } else {
      SeekIsAtLeast(code, begin, end, left);
      SeekIff(code, begin, end, left, found);
      assert GuardBehindGap(code, begin, end, left, found);
    }
  }

  method SeekCondition(code: seq<Instr>, begin: nat, end: nat) returns (found: int)
    requires begin <= end <= |code|
    ensures found == Seek(code, begin, end, MAX_GAP)
  {
    var cursor := begin;
    while cursor < end && cursor - begin < MAX_GAP && GapSafe(code[cursor])
      invariant begin <= cursor <= end && cursor - begin <= MAX_GAP
      invariant Seek(code, cursor, end, MAX_GAP - (cursor - begin)) == Seek(code, begin, end, MAX_GAP)
    {
      cursor := cursor + 1;
    }
    if cursor + 1 < end && IsGuard(code, cursor) {
      return cursor;
    }
    found := -1;
  }

  ghost predicate SafeRange(code: seq<Instr>, from: nat, to: nat)
    requires to <= |code|
  {
    forall p {:trigger GapSafe(code[p])} :: from <= p < to ==> GapSafe(code[p])
  }

  // ---------- what is to be found ----------

  /** A secondary test behind the payload, and jumps that fit the candidate. */
  ghost predicate FitsHere(code: seq<Instr>, end: nat, c: Candidate, join: int)
    requires end <= |code|
  {
    && c.primaryPc + 1 < end && IsGuard(code, c.primaryPc)
    && c.secondaryPc == Seek(code, c.primaryPc + 2, end, MAX_GAP) && c.secondaryPc + 1 < |code|
    && code[c.primaryPc + 1].target == NextBegin(c) && code[c.secondaryPc + 1].target == join && NextBegin(c) < join <= end
  }

  /** Candidate `k` is the next one behind those before it. */
  ghost predicate Sought(code: seq<Instr>, pc: nat, end: nat, cands: seq<Candidate>, join: int, k: nat)
    requires end <= |code| && k < |cands|
  {
    && cands[k].prefixBegin == BeginOf(cands, pc, k)
    && cands[k].primaryPc == (if k == 0 then pc else Seek(code, BeginOf(cands, pc, k), end, MAX_GAP))
    && FitsHere(code, end, cands[k], join)
  }

  ghost predicate AllSought(code: seq<Instr>, pc: nat, end: nat, cands: seq<Candidate>, join: int)
    requires end <= |code|
  {
    forall k: nat {:trigger Sought(code, pc, end, cands, join, k)} :: k < |cands| ==> Sought(code, pc, end, cands, join, k)
  }

  /** The chain the flag protocol is for: as many candidates as there are, a short fallback, and no other transfers. */
  ghost predicate GuardedFold(code: seq<Instr>, pc: nat, end: nat, cands: seq<Candidate>, join: nat)
    requires end <= |code|
  {
    && 0 < |cands| <= MAX_CANDIDATES && AllSought(code, pc, end, cands, join)
    && Seek(code, BeginOf(cands, pc, |cands|), end, MAX_GAP) == -1
    && join <= end && join - BeginOf(cands, pc, |cands|) <= MAX_GAP && SafeRange(code, BeginOf(cands, pc, |cands|), join)
    && forall e: nat :: e < |code| ==> EdgeFits(code, pc, cands, join, e)
  }

  /** Every such chain starts with the candidates found so far, and goes on at `candidatePc`. */
  ghost predicate Leading(code: seq<Instr>, pc: nat, end: nat, cands: seq<Candidate>, shared: int, candidatePc: nat)
    requires end <= |code|
  {
    forall cs: seq<Candidate>, j: nat {:trigger GuardedFold(code, pc, end, cs, j)} :: GuardedFold(code, pc, end, cs, j) ==>
      && |cands| < |cs| && cs[..|cands|] == cands && (cands != [] ==> shared == j) && cs[|cands|].primaryPc == candidatePc
  }

  lemma SameBegin(pc: nat, cands: seq<Candidate>, cs: seq<Candidate>)
    requires |cands| <= |cs| && cs[..|cands|] == cands
    ensures BeginOf(cs, pc, |cands|) == BeginOf(cands, pc, |cands|)
  {
    if |cands| > 0 {
      assert cs[|cands| - 1] == cs[..|cands|][|cands| - 1];
    }
  }

  /** Two candidates that fit with the same primary test are the same. */
  lemma FitsOnce(code: seq<Instr>, end: nat, c: Candidate, target: int, d: Candidate, j: int)
    requires end <= |code| && FitsHere(code, end, c, target) && FitsHere(code, end, d, j)
    requires c.prefixBegin == d.prefixBegin && c.primaryPc == d.primaryPc
    ensures c == d && target == j
  {
  }

  lemma SoughtIsFound(code: seq<Instr>, pc: nat, end: nat, cands: seq<Candidate>, c: Candidate, target: int, cs: seq<Candidate>, j: nat)
    requires end <= |code| && GuardedFold(code, pc, end, cs, j) && |cands| < |cs| && cs[..|cands|] == cands
    requires c.prefixBegin == BeginOf(cands, pc, |cands|) && cs[|cands|].primaryPc == c.primaryPc && FitsHere(code, end, c, target)
    ensures cs[|cands|] == c && j == target && cs[..|cands| + 1] == cands + [c]
  {
    assert Sought(code, pc, end, cs, j, |cands|);
    SameBegin(pc, cands, cs);
    FitsOnce(code, end, c, target, cs[|cands|], j);
  }

  /** With the next candidate found, the chains go on behind it, or end there. */
  lemma LeadingStep(code: seq<Instr>, pc: nat, end: nat, cands: seq<Candidate>, shared: int, c: Candidate, target: int, cs: seq<Candidate>, j: nat)
    requires end <= |code| && Leading(code, pc, end, cands, shared, c.primaryPc) && GuardedFold(code, pc, end, cs, j)
    requires c.prefixBegin == BeginOf(cands, pc, |cands|) && FitsHere(code, end, c, target)
    ensures |cands| < |cs| && cs[..|cands| + 1] == cands + [c] && j == target
    ensures if |cs| == |cands| + 1 then Seek(code, NextBegin(c), end, MAX_GAP) == -1
            else cs[|cands| + 1].primaryPc == Seek(code, NextBegin(c), end, MAX_GAP)
  {
    SoughtIsFound(code, pc, end, cands, c, target, cs, j);
    if |cands| + 1 < |cs| {
      assert Sought(code, pc, end, cs, j, |cands| + 1);
    }
  }

  // ---------- finding it ----------

  /** The candidates found so far, all with the same join once there is one. */
  ghost predicate FoundSoFar(code: seq<Instr>, cands: seq<Candidate>, pc: nat, end: nat, join: int) {
    if cands == [] then join == -1 else 0 <= join <= end && CandidatesOk(code, cands, pc, join)
  }

  lemma CandidateFound(code: seq<Instr>, cands: seq<Candidate>, pc: nat, end: nat, join: int, c: Candidate, target: nat)
    requires FoundSoFar(code, cands, pc, end, join) && (join >= 0 ==> join == target) && target <= end
    requires CandidateOk(code, c, target) && c.prefixBegin == BeginOf(cands, pc, |cands|)
    requires cands == [] ==> c.primaryPc == pc
    ensures FoundSoFar(code, cands + [c], pc, end, target)
  {
    var more := cands + [c];
    forall k: nat | k < |more|
      ensures CandidateHere(code, more, pc, target, k)
    {
      if k < |cands| {
        assert CandidateHere(code, cands, pc, target, k);
      }
    }
  }

  /** What is asked of the place where a candidate's primary test should be. */
  predicate FitTest(code: seq<Instr>, end: nat, primaryPc: nat, join: int)
    requires end <= |code|
  {
    && primaryPc + 1 < end && IsGuard(code, primaryPc)
    && var secondaryPc := Seek(code, primaryPc + 2, end, MAX_GAP);
       && 0 <= secondaryPc && secondaryPc + 1 < |code| && code[primaryPc + 1].target == secondaryPc + 2
       && secondaryPc + 2 < code[secondaryPc + 1].target <= end && (join >= 0 ==> join == code[secondaryPc + 1].target)
  }

  lemma FitTestMeans(code: seq<Instr>, end: nat, c: Candidate, j: int, join: int)
    requires end <= |code| && FitsHere(code, end, c, j) && (join >= 0 ==> j == join)
    ensures FitTest(code, end, c.primaryPc, join)
  {
  }

  /** Tests one candidate: its secondary test, and its jumps. */
  method TestCandidate(code: seq<Instr>, prefixBegin: nat, primaryPc: nat, end: nat, join: int)
    returns (ok: bool, c: Candidate, target: nat)
    requires end <= |code|
    ensures ok <==> FitTest(code, end, primaryPc, join)
    ensures ok ==> c.prefixBegin == prefixBegin && c.primaryPc == primaryPc && FitsHere(code, end, c, target)
    ensures ok ==> join >= 0 ==> join == target
  {
    ok, c, target := false, Candidate(0, 0, 0), 0;
    if primaryPc + 1 >= end || !IsGuard(code, primaryPc) {
      return;
    }
    var secondaryPc := SeekCondition(code, primaryPc + 2, end);
    if secondaryPc < 0 || secondaryPc + 1 >= |code| {
      return;
    }
    var nextBegin := secondaryPc + 2;
    var primaryTarget := code[primaryPc + 1].target;
    var secondaryTarget := code[secondaryPc + 1].target;
    if primaryTarget != nextBegin || secondaryTarget <= nextBegin || secondaryTarget > end || (join >= 0 && join != secondaryTarget) {
      return;
    }
    ok, c, target := true, Candidate(prefixBegin, primaryPc, secondaryPc), secondaryTarget;
  }

  /** A candidate that fits, behind a gap, is one. */
  lemma FittingIsOk(code: seq<Instr>, end: nat, c: Candidate, join: nat)
    requires WellFormed(code) && end <= |code| && FitsHere(code, end, c, join)
    requires Boundary(code, c.primaryPc) && Gap(code, c.prefixBegin, c.primaryPc)
    ensures CandidateOk(code, c, join)
  {
    assert TargetsOk(code, c.primaryPc);
    SeekIsGuard(code, c.primaryPc + 2, end, MAX_GAP);
  }

  /** The fallback between the last candidate and the join is short and safe. */
  method TestFallback(code: seq<Instr>, begin: nat, join: nat) returns (ok: bool)
    requires begin <= join <= |code| && (begin < |code| ==> Boundary(code, begin)) && (join < |code| ==> Boundary(code, join))
    ensures ok ==> Gap(code, begin, join)
    ensures ok <==> join - begin <= MAX_GAP && SafeRange(code, begin, join)
  {
    if join - begin > MAX_GAP {
      return false;
    }
    for pc := begin to join
      invariant SafeRange(code, begin, pc)
    {
      if !GapSafe(code[pc]) {
        return false;
      }
    }
    ok := true;
  }

  lemma AllSoughtSnoc(code: seq<Instr>, pc: nat, end: nat, cands: seq<Candidate>, join: int, c: Candidate, target: int)
    requires end <= |code| && AllSought(code, pc, end, cands, join) && (cands != [] ==> join == target)
    requires c.prefixBegin == BeginOf(cands, pc, |cands|) && FitsHere(code, end, c, target)
    requires c.primaryPc == if cands == [] then pc else Seek(code, BeginOf(cands, pc, |cands|), end, MAX_GAP)
    ensures AllSought(code, pc, end, cands + [c], target)
  {
    var more := cands + [c];
    forall k: nat | k < |more|
      ensures Sought(code, pc, end, more, target, k)
    {
      if k < |cands| {
        assert Sought(code, pc, end, cands, join, k);
      }
    }
  }

  /** What the search knows when it looks for a candidate at `candidatePc`. */
  ghost predicate Searching(code: seq<Instr>, pc: nat, end: nat, cands: seq<Candidate>, shared: int, prefixBegin: nat, candidatePc: nat)
    requires end <= |code|
  {
    && FoundSoFar(code, cands, pc, end, shared) && AllSought(code, pc, end, cands, shared)
    && Boundary(code, candidatePc) && Gap(code, prefixBegin, candidatePc) && prefixBegin == BeginOf(cands, pc, |cands|)
    && candidatePc == (if cands == [] then pc else Seek(code, prefixBegin, end, MAX_GAP))
    && Leading(code, pc, end, cands, shared, candidatePc)
  }

  ghost predicate Next(code: seq<Instr>, end: nat, shared: int, prefixBegin: nat, candidatePc: nat, c: Candidate, target: nat)
    requires end <= |code|
  {
    c.prefixBegin == prefixBegin && c.primaryPc == candidatePc && FitsHere(code, end, c, target) && (shared >= 0 ==> shared == target)
  }

  lemma CandidateKeeps(code: seq<Instr>, pc: nat, end: nat, cands: seq<Candidate>, shared: int, prefixBegin: nat, candidatePc: nat,
                       c: Candidate, target: nat)
    requires WellFormed(code) && end <= |code| && Searching(code, pc, end, cands, shared, prefixBegin, candidatePc)
    requires Next(code, end, shared, prefixBegin, candidatePc, c, target)
    ensures FoundSoFar(code, cands + [c], pc, end, target) && AllSought(code, pc, end, cands + [c], target)
    ensures Boundary(code, NextBegin(c)) && Boundary(code, target)
  {
    FittingIsOk(code, end, c, target);
    CandidateFound(code, cands, pc, end, shared, c, target);
    AllSoughtSnoc(code, pc, end, cands, shared, c, target);
    SecondaryEnds(code, c, target);
  }

  lemma SearchGoesOn(code: seq<Instr>, pc: nat, end: nat, cands: seq<Candidate>, shared: int, prefixBegin: nat, candidatePc: nat,
                     c: Candidate, target: nat, next: nat)
    requires WellFormed(code) && end <= |code| && Searching(code, pc, end, cands, shared, prefixBegin, candidatePc)
    requires Next(code, end, shared, prefixBegin, candidatePc, c, target) && Seek(code, NextBegin(c), end, MAX_GAP) == next
    ensures Searching(code, pc, end, cands + [c], target, NextBegin(c), next)
  {
    CandidateKeeps(code, pc, end, cands, shared, prefixBegin, candidatePc, c, target);
    SeekIsGuard(code, NextBegin(c), end, MAX_GAP);
    LeadsOnward(code, pc, end, cands, shared, c, target, next);
  }

  /** The last candidate: the chain is the one found, if its fallback and the other transfers allow it. */
  lemma SearchEnds(code: seq<Instr>, pc: nat, end: nat, cands: seq<Candidate>, shared: int, prefixBegin: nat, candidatePc: nat,
                   c: Candidate, target: nat)
    requires WellFormed(code) && end <= |code| && Searching(code, pc, end, cands, shared, prefixBegin, candidatePc)
    requires Next(code, end, shared, prefixBegin, candidatePc, c, target) && Seek(code, NextBegin(c), end, MAX_GAP) < 0
    requires |cands| < MAX_CANDIDATES
    ensures GuardedFold(code, pc, end, cands + [c], target) <==>
      && target - NextBegin(c) <= MAX_GAP && SafeRange(code, NextBegin(c), target)
      && forall e: nat :: e < |code| ==> EdgeFits(code, pc, cands + [c], target, e)
    ensures GuardedFold(code, pc, end, cands + [c], target) ==> GuardedShape(code, pc, end, cands + [c], target)
    ensures forall cs: seq<Candidate>, j: nat {:trigger GuardedFold(code, pc, end, cs, j)} ::
      GuardedFold(code, pc, end, cs, j) ==> cs == cands + [c] && j == target
  {
    CandidateKeeps(code, pc, end, cands, shared, prefixBegin, candidatePc, c, target);
    OnlyThisOne(code, pc, end, cands, shared, c, target);
    assert BeginOf(cands + [c], pc, |cands| + 1) == NextBegin(c);
    SeekIsAtLeast(code, NextBegin(c), end, MAX_GAP);
  }

  lemma {:induction false} SeekIsAtLeast(code: seq<Instr>, begin: nat, end: nat, left: nat)
    requires end <= |code|
    ensures Seek(code, begin, end, left) >= -1
    decreases left
  {
    if begin < end && left > 0 && GapSafe(code[begin]) {
      SeekIsAtLeast(code, begin + 1, end, left - 1);
    }
  }

  /** The search for candidates finds the chain if there is one, and there is at most one. */
  method FindGuardedChain(code: seq<Instr>, pc: nat, end: nat) returns (ok: bool, cands: seq<Candidate>, join: nat)
    requires WellFormed(code) && pc < end <= |code| && Boundary(code, pc)
    ensures ok <==> exists cs, j :: GuardedFold(code, pc, end, cs, j)
    ensures ok ==> GuardedFold(code, pc, end, cands, join) && GuardedShape(code, pc, end, cands, join)
  {
    ok, cands, join := false, [], 0;
    var shared: int := -1;
    var prefixBegin: nat, candidatePc: nat := pc, pc;
    var count := 0;
    LeadingStart(code, pc, end);
    while count < MAX_CANDIDATES
      invariant |cands| == count <= MAX_CANDIDATES && !ok && (cands == [] ==> shared == -1)
      invariant Searching(code, pc, end, cands, shared, prefixBegin, candidatePc)
    {
      var fits, c, target := TestCandidate(code, prefixBegin, candidatePc, end, shared);
      if !fits {
        NothingFits(code, pc, end, cands, shared, candidatePc);
        return;
      }
      ghost var before := cands;
      CandidateKeeps(code, pc, end, cands, shared, prefixBegin, candidatePc, c, target);
      var nextBegin := NextBegin(c);
      var nextPrimary := SeekCondition(code, nextBegin, end);
      if nextPrimary < 0 {
        SearchEnds(code, pc, end, cands, shared, prefixBegin, candidatePc, c, target);
        cands, join := cands + [c], target;
        ok := TestFallback(code, nextBegin, join);
        if ok {
          ok := CheckEdges(code, pc, cands, join);
        }
        return;
      }
      SearchGoesOn(code, pc, end, cands, shared, prefixBegin, candidatePc, c, target, nextPrimary);
      cands, shared, prefixBegin, candidatePc := cands + [c], target, nextBegin, nextPrimary;
      count := count + 1;
    }
    TooMany(code, pc, end, cands, shared, candidatePc);
  }

  lemma TooMany(code: seq<Instr>, pc: nat, end: nat, cands: seq<Candidate>, shared: int, candidatePc: nat)
    requires end <= |code| && Leading(code, pc, end, cands, shared, candidatePc) && |cands| >= MAX_CANDIDATES
    ensures !exists cs, j :: GuardedFold(code, pc, end, cs, j)
  {
  }

  lemma LeadingStart(code: seq<Instr>, pc: nat, end: nat)
    requires end <= |code|
    ensures Leading(code, pc, end, [], -1, pc)
  {
    forall cs: seq<Candidate>, j: nat | GuardedFold(code, pc, end, cs, j)
      ensures cs[0].primaryPc == pc && cs[..0] == []
    {
      assert Sought(code, pc, end, cs, j, 0);
    }
  }

  /** If no candidate fits at the next place, there is no chain. */
  lemma NothingFits(code: seq<Instr>, pc: nat, end: nat, cands: seq<Candidate>, shared: int, candidatePc: nat)
    requires end <= |code| && Leading(code, pc, end, cands, shared, candidatePc) && (cands == [] ==> shared == -1)
    requires !FitTest(code, end, candidatePc, shared)
    ensures !exists cs, j :: GuardedFold(code, pc, end, cs, j)
  {
    forall cs: seq<Candidate>, j: nat | GuardedFold(code, pc, end, cs, j)
      ensures false
    {
      SoughtFits(code, pc, end, cs, j, |cands|);
      FitTestMeans(code, end, cs[|cands|], j, shared);
    }
  }

  lemma SoughtFits(code: seq<Instr>, pc: nat, end: nat, cs: seq<Candidate>, j: nat, k: nat)
    requires end <= |code| && GuardedFold(code, pc, end, cs, j) && k < |cs|
    ensures FitsHere(code, end, cs[k], j)
  {
    assert Sought(code, pc, end, cs, j, k);
  }

  /** If no guard follows the candidate, the only possible chain is the one that ends with it. */
  lemma OnlyThisOne(code: seq<Instr>, pc: nat, end: nat, cands: seq<Candidate>, shared: int, c: Candidate, target: nat)
    requires end <= |code| && Leading(code, pc, end, cands, shared, c.primaryPc)
    requires c.prefixBegin == BeginOf(cands, pc, |cands|) && FitsHere(code, end, c, target)
    requires Seek(code, NextBegin(c), end, MAX_GAP) < 0
    ensures forall cs: seq<Candidate>, j: nat {:trigger GuardedFold(code, pc, end, cs, j)} :: GuardedFold(code, pc, end, cs, j) ==> cs == cands + [c] && j == target
  {
    forall cs: seq<Candidate>, j: nat | GuardedFold(code, pc, end, cs, j)
      ensures cs == cands + [c] && j == target
    {
      LeadingStep(code, pc, end, cands, shared, c, target, cs, j);
      assert cs[..|cs|] == cs;
    }
  }

  lemma LeadsOnward(code: seq<Instr>, pc: nat, end: nat, cands: seq<Candidate>, shared: int, c: Candidate, target: nat, next: nat)
    requires end <= |code| && Leading(code, pc, end, cands, shared, c.primaryPc)
    requires c.prefixBegin == BeginOf(cands, pc, |cands|) && FitsHere(code, end, c, target)
    requires Seek(code, NextBegin(c), end, MAX_GAP) == next
    ensures Leading(code, pc, end, cands + [c], target, next)
  {
    forall cs: seq<Candidate>, j: nat | GuardedFold(code, pc, end, cs, j)
      ensures |cands| + 1 < |cs| && cs[..|cands| + 1] == cands + [c] && target == j && cs[|cands| + 1].primaryPc == next
    {
      LeadingStep(code, pc, end, cands, shared, c, target, cs, j);
    }
  }

  /** Behind a secondary test and at its jump's target there are instructions. */
  lemma SecondaryEnds(code: seq<Instr>, c: Candidate, join: nat)
    requires WellFormed(code) && CandidateOk(code, c, join)
    ensures Boundary(code, NextBegin(c)) && Boundary(code, join)
  {
    assert TargetsOk(code, c.secondaryPc);
    assert TargetsOk(code, c.secondaryPc + 1);
  }

  // ---------- no way into the middle ----------

  /** The jump of a candidate at `e` leads to `target`. */
  predicate IsChainJump(cands: seq<Candidate>, join: nat, e: nat, target: int) {
    exists k :: 0 <= k < |cands| && IsJumpOf(cands[k], join, e, target)
  }

  predicate IsJumpOf(c: Candidate, join: nat, e: nat, target: int) {
    (e == c.primaryPc + 1 && target == NextBegin(c)) || (e == c.secondaryPc + 1 && target == join)
  }

  predicate IsChainTest(cands: seq<Candidate>, e: nat) {
    exists k :: 0 <= k < |cands| && (e == cands[k].primaryPc || e == cands[k].secondaryPc)
  }

  /** What is asked of every instruction: inside, only the chain's own transfers; outside, no jump into the middle. */
  predicate EdgeFits(code: seq<Instr>, pc: nat, cands: seq<Candidate>, join: nat, e: nat)
    requires e < |code|
  {
    var i := code[e];
    var inside := pc <= e < join;
    if i.op.Jmp? || i.op.ForLoop? || i.op.ForPrep? then
      if inside then i.op.Jmp? && IsChainJump(cands, join, e, i.target) else !(pc < i.target < join)
    else if (i.op.Compare? || i.op.Test?) && inside then IsChainTest(cands, e)
    else !((i.op.TestSet? || i.op.TForLoop?) && inside)
  }

  method CheckEdges(code: seq<Instr>, pc: nat, cands: seq<Candidate>, join: nat) returns (ok: bool)
    ensures ok <==> forall e: nat :: e < |code| ==> EdgeFits(code, pc, cands, join, e)
  {
    for e := 0 to |code|
      invariant forall d: nat :: d < e ==> EdgeFits(code, pc, cands, join, d)
    {
      if !EdgeFits(code, pc, cands, join, e) {
        return false;
      }
    }
    ok := true;
  }

  predicate SkipsInto(code: seq<Instr>, pc: int, e: int) {
    e == pc - 1 && Boundary(code, e) && code[e].op.LoadBool? && code[e].c != 0
  }

  /** An edge from outside into the middle of a checked chain can only be a LOADBOOL that skips the first test. */
  lemma OutsideEdge(code: seq<Instr>, pc: nat, cands: seq<Candidate>, join: nat, e: int, t: int)
    requires WellFormed(code) && Boundary(code, pc) && IsGuard(code, pc) && join <= |code|
    requires forall d: nat :: d < |code| ==> EdgeFits(code, pc, cands, join, d)
    requires !(pc <= e < join) && pc < t < join && Edge(code, e, t)
    ensures SkipsInto(code, pc, e) && t == pc + 1
  {
    assert e + 1 < |code| ==> EdgeFits(code, pc, cands, join, e + 1);
    assert e + 1 < |code| && Boundary(code, e + 1) ==> TargetsOk(code, e + 1);
    assert EdgeFits(code, pc, cands, join, e);
    assert Tiled(code, e) && TargetsOk(code, e);
  }

  /**
   The check leaves one way in: the middle of the chain can be entered from outside exactly if the instruction before it
   is a LOADBOOL that skips, and then behind the first test.
   */
  lemma MiddleEnteredIff(code: seq<Instr>, pc: nat, end: nat, cands: seq<Candidate>, join: nat)
    requires WellFormed(code) && Boundary(code, pc) && GuardedShape(code, pc, end, cands, join)
    requires forall d: nat :: d < |code| ==> EdgeFits(code, pc, cands, join, d)
    ensures (exists e, t :: !(pc <= e < join) && pc < t < join && Edge(code, e, t)) <==> SkipsInto(code, pc, pc - 1)
  {
    CandidateAt(code, pc, end, cands, join, 0);
    if e, t :| !(pc <= e < join) && pc < t < join && Edge(code, e, t) {
      OutsideEdge(code, pc, cands, join, e, t);
    }
    if SkipsInto(code, pc, pc - 1) {
      assert [pc + 1][0] == pc + 1;
      assert Edge(code, pc - 1, pc + 1);
      ChainRunsPast(code, pc, end, cands, join);
    }
  }

  function Word(op: Op, c: nat, sbx: int, target: int): Instr {
    Instr(op, 0, c, sbx, target, false, false, 0, false)
  }

  /** A LOADBOOL that skips into one candidate: LOADBOOL, TEST, JMP, TEST, JMP, MOVE and RETURN. */
  lemma LoadBoolEntersMiddle() returns (code: seq<Instr>, cands: seq<Candidate>)
    ensures WellFormed(code) && Boundary(code, 1) && GuardedFold(code, 1, |code|, cands, 6)
    ensures SkipsInto(code, 1, 0) && Edge(code, 0, 2)
  {
    code := [Word(LoadBool, 1, 0, 2), Word(Test, 0, 0, 3), Word(Jmp, 0, 2, 5), Word(Test, 0, 0, 5), Word(Jmp, 0, 1, 6),
             Word(Plain, 0, 0, -1), Word(Return, 0, 0, -1)];
    cands := [Candidate(1, 1, 3)];
    assert forall pc :: 0 <= pc < |code| ==> Boundary(code, pc);
    assert Seek(code, 3, 7, MAX_GAP) == 3;
    assert Seek(code, 6, 7, MAX_GAP - 1) == -1;
    assert FitsHere(code, 7, cands[0], 6) && Sought(code, 1, 7, cands, 6, 0);
    forall e: nat | e < |code| ensures EdgeFits(code, 1, cands, 6, e) {
      assert IsJumpOf(cands[0], 6, 2, 5) && IsJumpOf(cands[0], 6, 4, 6);
    }
    assert [2][0] == 2;
  }

  /** The join lies behind the first candidate's tests. */
  lemma ChainRunsPast(code: seq<Instr>, pc: nat, end: nat, cands: seq<Candidate>, join: nat)
    requires GuardedShape(code, pc, end, cands, join)
    ensures pc + 3 < join
  {
    LaterBegins(code, pc, end, cands, join, |cands|);
  }

  lemma {:induction false} LaterBegins(code: seq<Instr>, pc: nat, end: nat, cands: seq<Candidate>, join: nat, k: nat)
    requires GuardedShape(code, pc, end, cands, join) && 0 < k <= |cands|
    ensures pc + 4 <= BeginOf(cands, pc, k)
  {
    CandidateAt(code, pc, end, cands, join, k - 1);
    if k > 1 {
      LaterBegins(code, pc, end, cands, join, k - 1);
    }
  }

  // ---------- the emitted statements ----------

  /** Emitted statements over the local flag; `Body` is the rendering of a range of straight-line code. */
  datatype Node = Body(from: nat, to: nat) | If(cond: Cond, then_: seq<Node>) | IfNotFlag(then_: seq<Node>) | SetFlag

  ghost function Exec<S>(code: seq<Instr>, sem: Sem<S>, nodes: seq<Node>, flag: bool, s: S): (bool, S)
    decreases nodes
  {
    if nodes == [] then (flag, s)
    else
      var (flag', s') := ExecNode(code, sem, nodes[0], flag, s);
      Exec(code, sem, nodes[1..], flag', s')
  }

  ghost function ExecNode<S>(code: seq<Instr>, sem: Sem<S>, node: Node, flag: bool, s: S): (bool, S)
    decreases node
  {
    match node {
      case Body(from, to) => (flag, GapState(code, sem, from, to, s))
      case If(cond, body) => var (b, s') := Eval(code, sem, cond, s); if b then Exec(code, sem, body, flag, s') else (flag, s')
      case IfNotFlag(body) => if flag then (flag, s) else Exec(code, sem, body, flag, s)
      case SetFlag => (true, s)
    }
  }

  /** One candidate's test, payload and secondary test. */
  function TestNode(code: seq<Instr>, c: Candidate): Node
    requires c.primaryPc < |code| && c.secondaryPc < |code|
  {
    If(ConditionExpr(code, c.primaryPc),
       [Body(c.primaryPc + 2, c.secondaryPc), If(NegateConditionExpr(ConditionExpr(code, c.secondaryPc)), [SetFlag])])
  }

  ghost predicate InBounds(code: seq<Instr>, cands: seq<Candidate>) {
    forall k {:trigger cands[k]} :: 0 <= k < |cands| ==> cands[k].primaryPc < |code| && cands[k].secondaryPc < |code|
  }

  /** The statements for the candidates from `k` on, and for the fallback. */
  function LaterNodes(code: seq<Instr>, cands: seq<Candidate>, pc: nat, join: nat, k: nat): seq<Node>
    requires InBounds(code, cands) && k <= |cands|
    decreases |cands| - k
  {
    if k == |cands| then [IfNotFlag([Body(BeginOf(cands, pc, k), join)])]
    else
      [IfNotFlag([Body(cands[k].prefixBegin, cands[k].primaryPc), TestNode(code, cands[k])])]
      + LaterNodes(code, cands, pc, join, k + 1)
  }

  /** The emitting loop: the first candidate stands outside any flag test. */
  method EmitGuarded(code: seq<Instr>, cands: seq<Candidate>, pc: nat, join: nat) returns (out: seq<Node>)
    requires InBounds(code, cands) && |cands| > 0
    ensures out == [TestNode(code, cands[0])] + LaterNodes(code, cands, pc, join, 1)
  {
    out := [];
    var index := 0;
    while index < |cands|
      invariant 0 <= index <= |cands|
      invariant index == 0 ==> out == []
      invariant index > 0 ==>
        out + LaterNodes(code, cands, pc, join, index) == [TestNode(code, cands[0])] + LaterNodes(code, cands, pc, join, 1)
    {
      var c := cands[index];
      if index > 0 {
        var node := IfNotFlag([Body(c.prefixBegin, c.primaryPc), TestNode(code, c)]);
        assert out + ([node] + LaterNodes(code, cands, pc, join, index + 1)) == (out + [node]) + LaterNodes(code, cands, pc, join, index + 1);
        out := out + [node];
      } else {
        out := [TestNode(code, c)];
      }
      index := index + 1;
    }
    out := out + [IfNotFlag([Body(NextBegin(cands[|cands| - 1]), join)])];
  }

  // ---------- what the protocol means ----------

  /** Once the flag is set, the remaining statements do nothing. */
  lemma {:induction false} FlagSkips<S>(code: seq<Instr>, sem: Sem<S>, cands: seq<Candidate>, pc: nat, join: nat, k: nat, s: S)
    requires InBounds(code, cands) && k <= |cands|
    ensures Exec(code, sem, LaterNodes(code, cands, pc, join, k), true, s) == (true, s)
    decreases |cands| - k
  {
    var nodes := LaterNodes(code, cands, pc, join, k);
    if k < |cands| {
      FlagSkips(code, sem, cands, pc, join, k + 1, s);
      assert nodes[1..] == LaterNodes(code, cands, pc, join, k + 1);
    } else {
      assert nodes[1..] == [];
    }
  }

  lemma ExecOne<S>(code: seq<Instr>, sem: Sem<S>, node: Node, flag: bool, s: S)
    ensures Exec(code, sem, [node], flag, s) == ExecNode(code, sem, node, flag, s)
  {
    var (flag', s') := ExecNode(code, sem, node, flag, s);
    assert [node][1..] == [];
    assert Exec(code, sem, [node][1..], flag', s') == (flag', s');
  }

  lemma ExecTwo<S>(code: seq<Instr>, sem: Sem<S>, first: Node, second: Node, flag: bool, s: S)
    ensures var (flag', s') := ExecNode(code, sem, first, flag, s);
      Exec(code, sem, [first, second], flag, s) == ExecNode(code, sem, second, flag', s')
  {
    var (flag', s') := ExecNode(code, sem, first, flag, s);
    assert [first, second][1..] == [second];
    ExecOne(code, sem, second, flag', s');
  }

  /** One candidate: the flag says whether the machine has reached the join or goes on behind the candidate. */
  lemma CandidateMeans<S>(code: seq<Instr>, sem: Sem<S>, c: Candidate, join: nat, s: S)
    requires WellFormed(code) && CandidateOk(code, c, join)
    ensures var (flag, s') := ExecNode(code, sem, TestNode(code, c), false, s);
      Leads(code, sem, At(c.primaryPc, s), At(if flag then join else NextBegin(c), s'))
  {
    GuardStep(code, sem, c.primaryPc, s);
    LeadsStep(code, sem, c.primaryPc, s);
    var (b, s1) := Eval(code, sem, ConditionExpr(code, c.primaryPc), s);
    if b {
      PayloadMeans(code, sem, c, join, s1);
      var body := TestNode(code, c).then_;
      var (flag, s2) := Exec(code, sem, body, false, s1);
      LeadsOn(code, sem, At(c.primaryPc, s), At(c.primaryPc + 2, s1), At(if flag then join else NextBegin(c), s2));
    }
  }

  lemma PayloadMeans<S>(code: seq<Instr>, sem: Sem<S>, c: Candidate, join: nat, s: S)
    requires WellFormed(code) && CandidateOk(code, c, join)
    ensures var (flag, s') := Exec(code, sem, TestNode(code, c).then_, false, s);
      Leads(code, sem, At(c.primaryPc + 2, s), At(if flag then join else NextBegin(c), s'))
  {
    var inner := If(NegateConditionExpr(ConditionExpr(code, c.secondaryPc)), [SetFlag]);
    ExecTwo(code, sem, Body(c.primaryPc + 2, c.secondaryPc), inner, false, s);
    GapRuns(code, sem, c.primaryPc + 2, c.secondaryPc, s);
    var s1 := GapState(code, sem, c.primaryPc + 2, c.secondaryPc, s);
    GuardStep(code, sem, c.secondaryPc, s1);
    LeadsStep(code, sem, c.secondaryPc, s1);
    NegateNegates(code, sem, ConditionExpr(code, c.secondaryPc), s1);
    var (b, s2) := Eval(code, sem, ConditionExpr(code, c.secondaryPc), s1);
    ExecOne(code, sem, SetFlag, false, s2);
    LeadsOn(code, sem, At(c.primaryPc + 2, s), At(c.secondaryPc, s1), At(if b then NextBegin(c) else join, s2));
  }

  lemma ShapeInBounds(code: seq<Instr>, pc: nat, end: nat, cands: seq<Candidate>, join: nat)
    requires GuardedShape(code, pc, end, cands, join)
    ensures InBounds(code, cands)
  {
    forall k | 0 <= k < |cands|
      ensures cands[k].primaryPc < |code| && cands[k].secondaryPc < |code|
    {
      CandidateAt(code, pc, end, cands, join, k);
    }
  }

  function LaterNode(code: seq<Instr>, c: Candidate): Node
    requires c.primaryPc < |code| && c.secondaryPc < |code|
  {
    IfNotFlag([Body(c.prefixBegin, c.primaryPc), TestNode(code, c)])
  }

  /** One later candidate, with the flag still down: its prefix, then the candidate itself. */
  lemma LaterCandidateMeans<S>(code: seq<Instr>, sem: Sem<S>, c: Candidate, join: nat, s: S)
    requires WellFormed(code) && CandidateOk(code, c, join)
    ensures var (flag, s') := ExecNode(code, sem, LaterNode(code, c), false, s);
      Leads(code, sem, At(c.prefixBegin, s), At(if flag then join else NextBegin(c), s'))
  {
    var prefix := Body(c.prefixBegin, c.primaryPc);
    ExecTwo(code, sem, prefix, TestNode(code, c), false, s);
    GapRuns(code, sem, c.prefixBegin, c.primaryPc, s);
    var s1 := GapState(code, sem, c.prefixBegin, c.primaryPc, s);
    CandidateMeans(code, sem, c, join, s1);
    var (flag, s2) := ExecNode(code, sem, TestNode(code, c), false, s1);
    LeadsOn(code, sem, At(c.prefixBegin, s), At(c.primaryPc, s1), At(if flag then join else NextBegin(c), s2));
  }

  lemma FallbackMeans<S>(code: seq<Instr>, sem: Sem<S>, begin: nat, join: nat, s: S)
    requires WellFormed(code) && Gap(code, begin, join)
    ensures Leads(code, sem, At(begin, s), At(join, Exec(code, sem, [IfNotFlag([Body(begin, join)])], false, s).1))
  {
    ExecOne(code, sem, IfNotFlag([Body(begin, join)]), false, s);
    ExecOne(code, sem, Body(begin, join), false, s);
    GapRuns(code, sem, begin, join, s);
  }

  lemma ExecCons<S>(code: seq<Instr>, sem: Sem<S>, node: Node, rest: seq<Node>, flag: bool, s: S)
    ensures var (flag', s') := ExecNode(code, sem, node, flag, s);
      Exec(code, sem, [node] + rest, flag, s) == Exec(code, sem, rest, flag', s')
  {
    assert ([node] + rest)[1..] == rest;
  }

  /** A statement that leaves the machine at the join with the flag up, or behind it with the flag down, then the rest. */
  lemma ThenRest<S>(code: seq<Instr>, sem: Sem<S>, node: Node, rest: seq<Node>, from: nat, next: nat, join: nat, s: S)
    requires WellFormed(code)
    requires var (flag, s') := ExecNode(code, sem, node, false, s);
      && Leads(code, sem, At(from, s), At(if flag then join else next, s'))
      && if flag then Exec(code, sem, rest, true, s') == (true, s')
         else Leads(code, sem, At(next, s'), At(join, Exec(code, sem, rest, false, s').1))
    ensures Leads(code, sem, At(from, s), At(join, Exec(code, sem, [node] + rest, false, s).1))
  {
    ExecCons(code, sem, node, rest, false, s);
    var (flag, s') := ExecNode(code, sem, node, false, s);
    if !flag {
      LeadsOn(code, sem, At(from, s), At(next, s'), At(join, Exec(code, sem, rest, false, s').1));
    }
  }

  /** With the flag still down, the remaining statements do what the machine does from there to the join. */
  lemma {:induction false} LaterMeans<S>(
    code: seq<Instr>, sem: Sem<S>, pc: nat, end: nat, cands: seq<Candidate>, join: nat, k: nat, s: S)
    requires WellFormed(code) && GuardedShape(code, pc, end, cands, join) && InBounds(code, cands) && k <= |cands|
    ensures Leads(code, sem, At(BeginOf(cands, pc, k), s), At(join, Exec(code, sem, LaterNodes(code, cands, pc, join, k), false, s).1))
    decreases |cands| - k
  {
    if k == |cands| {
      FallbackMeans(code, sem, BeginOf(cands, pc, k), join, s);
    } else {
      var c := cands[k];
      CandidateAt(code, pc, end, cands, join, k);
      LaterCandidateMeans(code, sem, c, join, s);
      var (flag, s2) := ExecNode(code, sem, LaterNode(code, c), false, s);
      var rest := LaterNodes(code, cands, pc, join, k + 1);
      if flag {
        FlagSkips(code, sem, cands, pc, join, k + 1, s2);
      } else {
        LaterMeans(code, sem, pc, end, cands, join, k + 1, s2);
      }
      ThenRest(code, sem, LaterNode(code, c), rest, c.prefixBegin, NextBegin(c), join, s);
    }
  }

  /** `out` is the protocol of a guarded chain. */
  ghost predicate IsProtocol(code: seq<Instr>, pc: nat, end: nat, cands: seq<Candidate>, join: nat, out: seq<Node>) {
    && GuardedShape(code, pc, end, cands, join) && InBounds(code, cands)
    && out == [TestNode(code, cands[0])] + LaterNodes(code, cands, pc, join, 1)
  }

  /** Finds a guarded chain, if there is one, and emits its protocol. */
  method FoldGuarded(code: seq<Instr>, pc: nat, end: nat) returns (ok: bool, cands: seq<Candidate>, join: nat, out: seq<Node>)
    requires WellFormed(code) && pc < end <= |code| && Boundary(code, pc)
    ensures ok <==> exists cs, j :: GuardedFold(code, pc, end, cs, j)
    ensures ok ==> GuardedFold(code, pc, end, cands, join) && IsProtocol(code, pc, end, cands, join, out)
  {
    out := [];
    ok, cands, join := FindGuardedChain(code, pc, end);
    if ok {
      ShapeInBounds(code, pc, end, cands, join);
      out := EmitGuarded(code, cands, pc, join);
    }
  }

  /** The whole protocol: the emitted statements end in the state in which the machine arrives at the join. */
  lemma ProtocolMeans<S>(code: seq<Instr>, sem: Sem<S>, pc: nat, end: nat, cands: seq<Candidate>, join: nat, out: seq<Node>, s: S)
    requires WellFormed(code) && IsProtocol(code, pc, end, cands, join, out)
    ensures Leads(code, sem, At(pc, s), At(join, Exec(code, sem, out, false, s).1))
  {
    var c := cands[0];
    CandidateAt(code, pc, end, cands, join, 0);
    CandidateMeans(code, sem, c, join, s);
    var (flag, s1) := ExecNode(code, sem, TestNode(code, c), false, s);
    if flag {
      FlagSkips(code, sem, cands, pc, join, 1, s1);
    } else {
      LaterMeans(code, sem, pc, end, cands, join, 1, s1);
    }
    ThenRest(code, sem, TestNode(code, c), LaterNodes(code, cands, pc, join, 1), pc, NextBegin(c), join, s);
  }
}
