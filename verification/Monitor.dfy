/** The monitors: what a robot's report says about a plan under way. */
module Monitor {
  import opened Records
  import opened Pairs
  import opened Supports
  import opened SupportSearch
  import opened Traces
  import opened Changes

  datatype Decision = Wait | Continue | Replan | ModelViolation | StaleGeneration

  /** sg_monitor_result: the states to expect, and those reported against expectation. */
  datatype Finding = Finding(decision: Decision, expected: seq<nat>, unexpected: seq<nat>)

  /** sg_observed_monitor_result */
  datatype Observation = Observation(finding: Finding, compatible: bool, failedStep: nat, observedOutput: nat,
      expectedOutputs: seq<nat>)

  const NOTHING := Finding(Wait, [], [])

  /** The list holds the set, in ascending order. */
  ghost predicate ListsSet(ids: seq<nat>, s: set<nat>) {
    Ascending(ids) && forall x: nat {:trigger x in ids} {:trigger x in s} :: x in ids <==> x in s
  }

  /** sg_bitset_to_ids */
  method ToIds(s: set<nat>, n: nat) returns (ids: seq<nat>)
    requires forall x | x in s :: x < n
    ensures ListsSet(ids, s)
  {
    ids := [];
    for k := 0 to n
      invariant Ascending(ids) && forall i {:trigger ids[i]} | 0 <= i < |ids| :: ids[i] < k
      invariant forall x: nat {:trigger x in ids} :: x in ids <==> x in s && x < k
    {
      if k in s {
        ids := ids + [k];
      }
    }
  }

  /** Continue if the report is what is expected, replan if it is only part of it; a
      report outside of it breaks the model. */
  function Compared(reported: set<nat>, expected: set<nat>): Decision {
    if reported == expected then Continue else if reported <= expected then Replan else ModelViolation
  }

  /** What a decision about a report says. */
  ghost predicate Judges(decision: Decision, reported: set<nat>, expected: set<nat>) {
    && (decision == Continue <==> forall x :: x in reported <==> x in expected)
    && (decision == Replan <==>
          (forall x | x in reported :: x in expected) && exists x :: x in expected && x !in reported)
    && (decision == ModelViolation <==> exists x :: x in reported && x !in expected)
  }

  lemma ComparedJudges(reported: set<nat>, expected: set<nat>)
    ensures Judges(Compared(reported, expected), reported, expected)
  {
    if reported <= expected && reported != expected {
      assert exists x :: x in expected && x !in reported;
    }
  }

  /** sg_monitor_fill_arrays, and the decision taken with it. */
  method Fill(n: nat, expected: set<nat>, reported: set<nat>, decision: Decision) returns (finding: Finding)
    requires forall x | x in expected || x in reported :: x < n
    ensures finding.decision == decision && ListsSet(finding.expected, expected)
            && ListsSet(finding.unexpected, reported - expected)
  {
    var expectedIds := ToIds(expected, n);
    var unexpectedIds := ToIds(reported - expected, n);
    finding := Finding(decision, expectedIds, unexpectedIds);
  }

  // ---------- Without outputs ----------

  /** What sg_validate_update finds after the first steps of a word. */
  ghost predicate Found(m: Automaton, s: set<nat>, w: seq<nat>, reported: set<nat>, localizer: bool, finding: Finding)
    requires m.Valid() && IsWord(m, w)
  {
    var expected := ImageOf(m, s, w);
    && ListsSet(finding.expected, expected)
    && (if localizer then Judges(finding.decision, reported, expected) else finding.decision == Wait)
    && ListsSet(finding.unexpected, if localizer then reported - expected else {})
  }

  /** sg_validate_update */
  method ValidateUpdate(m: Automaton, generation: nat, planGeneration: nat, initialIds: seq<nat>, word: seq<nat>,
                        completed: nat, reportedIds: seq<nat>, localizer: bool)
    returns (status: Status, finding: Finding)
    requires m.Valid()
    ensures initialIds == [] || completed > |word| || (localizer && reportedIds == []) ==> status == InvalidArgument
    ensures initialIds != [] && completed <= |word| && (localizer ==> reportedIds != []) ==>
              if planGeneration != generation then status == Ok && finding == NOTHING.(decision := StaleGeneration)
              else
                && status == (if IdsValid(m.states, initialIds) && IsWord(m, word[..completed])
                                 && (localizer ==> IdsValid(m.states, reportedIds)) then Ok else InvalidArgument)
                && (status.Ok? ==> Found(m, SupportSearch.IdSet(initialIds), word[..completed],
                    SupportSearch.IdSet(reportedIds), localizer, finding))
  {
    finding := NOTHING;
    if |initialIds| == 0 || completed > |word| || (localizer && |reportedIds| == 0) {
      return InvalidArgument, finding;
    }
    if planGeneration != generation {
      return Ok, finding.(decision := StaleGeneration);
    }
    var initial, expected, reported;
    status, initial := FromIds(m.states, initialIds);
    if status != Ok {
      return;
    }
    status, expected := ApplyWord(m, initial, word[..completed]);
    if status != Ok {
      return;
    }
    assert initialIds[0] in initial;
    assert IsSupport(m, initial) && IsSupport(m, expected);
    if !localizer {
      finding := Fill(m.states, expected, {}, Wait);
      return;
    }
    status, reported := FromIds(m.states, reportedIds);
    if status == Ok {
      ComparedJudges(reported, expected);
      finding := Fill(m.states, expected, reported, Compared(reported, expected));
    }
  }

  // ---------- With outputs ----------

  /** sg_apply_observed_action_set */
  method ApplyObserved(m: Automaton, source: set<nat>, action: nat, output: nat) returns (destination: set<nat>)
    requires m.Valid() && action < m.actions
    ensures destination == Group(m, source, action, output)
  {
    destination := {};
    for state := 0 to m.states
      invariant destination == Group(m, Below(source, state), action, output)
    {
      GroupNext(m, source, state, action);
      if state in source && m.eta[state][action] == output {
        destination := destination + {m.delta[state][action]};
      }
    }
    assert Group(m, Below(source, m.states), action, output) == Group(m, source, action, output);
  }

  ghost function Possible(m: Automaton, s: set<nat>, a: nat): (outputs: set<nat>)
    requires m.Valid() && a < m.actions
    ensures forall o: nat {:trigger o in outputs} :: o in outputs <==> Group(m, s, a, o) != {}
  {
    var outputs := set x | x in s && x < m.states :: m.eta[x][a];
    forall o: nat ensures o in outputs <==> Group(m, s, a, o) != {} {
      if x :| x in s && x < m.states && m.eta[x][a] == o {
        assert m.delta[x][a] in Group(m, s, a, o);
      }
    }
    outputs
  }

  /** sg_monitor_expected_outputs */
  method ExpectedOutputs(m: Automaton, source: set<nat>, action: nat) returns (outputs: seq<nat>)
    requires m.Valid() && action < m.actions && forall x | x in source :: x < m.states
    ensures ListsSet(outputs, Possible(m, source, action))
  {
    var seen: set<nat> := {};
    for state := 0 to m.states
      invariant seen == set x | x in source && x < state :: m.eta[x][action]
    {
      if state in source {
        seen := seen + {m.eta[state][action]};
      }
    }
    assert forall o | o in seen :: o < m.outputs;
    assert seen == Possible(m, source, action);
    outputs := ToIds(seen, m.outputs);
  }

  /** The least number of steps after which no hypothesis has given the outputs. */
  ghost predicate FailsAt(m: Automaton, s: set<nat>, w: seq<nat>, t: seq<nat>, f: nat)
    requires m.Valid() && IsWord(m, w)
  {
    && 1 <= f <= |w| == |t|
    && Branch(m, s, w[..f], t[..f]) == {}
    && forall k | 0 <= k < f :: Branch(m, s, w[..k], t[..k]) != {}
  }

  /** What is reported if step f is the first that keeps no hypothesis. */
  ghost predicate Failed(m: Automaton, s: set<nat>, w: seq<nat>, t: seq<nat>, f: nat, observedOutput: nat,
                         expectedOutputs: seq<nat>)
    requires m.Valid() && IsWord(m, w)
  {
    && FailsAt(m, s, w, t, f) && observedOutput == t[f - 1]
    && forall o {:trigger o in expectedOutputs} :: o in expectedOutputs <==>
        Branch(m, s, w[..f], t[..f - 1] + [o]) != {}
  }

  /** What sg_validate_observed_update finds after a word and the outputs seen. */
  ghost predicate Observed(m: Automaton, s: set<nat>, w: seq<nat>, t: seq<nat>, reported: set<nat>, localizer: bool,
                           r: Observation)
    requires m.Valid() && IsWord(m, w)
  {
    var expected := Branch(m, s, w, t);
    && ListsSet(r.finding.expected, expected) && ListsSet(r.finding.unexpected, reported - expected)
    && (r.compatible <==> expected != {})
    && (r.compatible ==> r.failedStep == r.observedOutput == NONE && r.expectedOutputs == [])
    && (!r.compatible ==> Failed(m, s, w, t, r.failedStep, r.observedOutput, r.expectedOutputs))
    && (if !r.compatible then r.finding.decision == ModelViolation
        else if localizer then Judges(r.finding.decision, reported, expected)
        else r.finding.decision == Wait)
  }

  /** Once no hypothesis is left, none comes back. */
  lemma {:induction false} EmptyStaysEmpty(m: Automaton, s: set<nat>, w: seq<nat>, t: seq<nat>, k: nat)
    requires m.Valid() && IsWord(m, w) && |w| == |t| && k <= |w| && Branch(m, s, w[..k], t[..k]) == {}
    ensures Branch(m, s, w, t) == {}
    decreases |w| - k
  {
    if k < |w| {
      assert w[..k + 1] == w[..k] + [w[k]] && t[..k + 1] == t[..k] + [t[k]];
      BranchNext(m, s, w[..k], t[..k], w[k], t[k]);
      EmptyStaysEmpty(m, s, w, t, k + 1);
    } else {
      assert w[..k] == w && t[..k] == t;
    }
  }

  /** After k steps some hypothesis is left.  The definition is some steps away, so that
      only TrackingIs unfolds it. */
  ghost predicate Tracking(m: Automaton, s: set<nat>, w: seq<nat>, t: seq<nat>, k: nat, expected: set<nat>) {
    TrackingIn(m, s, w, t, k, expected, DEPTH + 1)
  }

  ghost predicate TrackingIn(m: Automaton, s: set<nat>, w: seq<nat>, t: seq<nat>, k: nat, expected: set<nat>,
                             steps: nat)
    decreases steps
  {
    if steps > 0 then TrackingIn(m, s, w, t, k, expected, steps - 1)
    else
      && IsSupport(m, s) && IsWord(m, w) && k <= |w| == |t| && IsSupport(m, expected)
      && expected == Branch(m, s, w[..k], t[..k])
      && forall i | 0 <= i < k :: Branch(m, s, w[..i], t[..i]) != {}
  }

  lemma TrackingIs(m: Automaton, s: set<nat>, w: seq<nat>, t: seq<nat>, k: nat, expected: set<nat>)
    ensures Tracking(m, s, w, t, k, expected) <==>
              && IsSupport(m, s) && IsWord(m, w) && k <= |w| == |t| && IsSupport(m, expected)
              && expected == Branch(m, s, w[..k], t[..k])
              && forall i | 0 <= i < k :: Branch(m, s, w[..i], t[..i]) != {}
  {
    var steps: nat := DEPTH + 1;
    while steps > 0
      invariant TrackingIn(m, s, w, t, k, expected, DEPTH + 1) == TrackingIn(m, s, w, t, k, expected, steps)
    {
      steps := steps - 1;
    }
  }

  lemma TrackStarts(m: Automaton, s: set<nat>, w: seq<nat>, t: seq<nat>)
    requires IsSupport(m, s) && IsWord(m, w) && |w| == |t|
    ensures Tracking(m, s, w, t, 0, s)
  {
    TrackingIs(m, s, w, t, 0, s);
    BranchStarts(m, s);
    assert w[..0] == [] && t[..0] == [];
  }

  lemma TrackStep(m: Automaton, s: set<nat>, w: seq<nat>, t: seq<nat>, k: nat, expected: set<nat>)
    requires Tracking(m, s, w, t, k, expected) && k < |w|
    ensures m.Valid() && IsWord(m, w) && |w| == |t| && w[k] < m.actions
    ensures Branch(m, s, w[..k + 1], t[..k + 1]) == Group(m, expected, w[k], t[k])
  {
    TrackingIs(m, s, w, t, k, expected);
    assert w[..k + 1] == w[..k] + [w[k]] && t[..k + 1] == t[..k] + [t[k]];
    BranchNext(m, s, w[..k], t[..k], w[k], t[k]);
  }

  lemma TrackOn(m: Automaton, s: set<nat>, w: seq<nat>, t: seq<nat>, k: nat, expected: set<nat>, next: set<nat>)
    requires Tracking(m, s, w, t, k, expected) && k < |w|
    requires m.Valid() && IsWord(m, w) && |w| == |t| && next == Branch(m, s, w[..k + 1], t[..k + 1]) != {}
    ensures Tracking(m, s, w, t, k + 1, next)
  {
    TrackingIs(m, s, w, t, k, expected);
    TrackingIs(m, s, w, t, k + 1, next);
    BranchIsSupport(m, s, w[..k + 1], t[..k + 1]);
    forall i | 0 <= i < k + 1 ensures Branch(m, s, w[..i], t[..i]) != {} {
    }
  }

  lemma TrackFails(m: Automaton, s: set<nat>, w: seq<nat>, t: seq<nat>, k: nat, expected: set<nat>)
    requires Tracking(m, s, w, t, k, expected) && k < |w|
    requires m.Valid() && IsWord(m, w) && |w| == |t| && Branch(m, s, w[..k + 1], t[..k + 1]) == {}
    ensures FailsAt(m, s, w, t, k + 1) && Branch(m, s, w, t) == {}
  {
    TrackingIs(m, s, w, t, k, expected);
    forall i | 0 <= i < k + 1 ensures Branch(m, s, w[..i], t[..i]) != {} {
    }
    EmptyStaysEmpty(m, s, w, t, k + 1);
  }

  /** One more step either keeps some hypothesis, or is the first that keeps none. */
  lemma TrackNext(m: Automaton, s: set<nat>, w: seq<nat>, t: seq<nat>, k: nat, expected: set<nat>)
    requires Tracking(m, s, w, t, k, expected) && k < |w|
    ensures m.Valid() && k < |t| && w[k] < m.actions
    ensures var next := Group(m, expected, w[k], t[k]);
            if next != {} then Tracking(m, s, w, t, k + 1, next)
            else IsWord(m, w) && FailsAt(m, s, w, t, k + 1) && Branch(m, s, w, t) == {}
  {
    TrackStep(m, s, w, t, k, expected);
    if Group(m, expected, w[k], t[k]) != {} {
      TrackOn(m, s, w, t, k, expected, Group(m, expected, w[k], t[k]));
    } else {
      TrackFails(m, s, w, t, k, expected);
    }
  }

  lemma TrackEnds(m: Automaton, s: set<nat>, w: seq<nat>, t: seq<nat>, expected: set<nat>)
    requires Tracking(m, s, w, t, |w|, expected)
    ensures m.Valid() && IsWord(m, w) && expected == Branch(m, s, w, t) != {}
  {
    TrackingIs(m, s, w, t, |w|, expected);
    assert w[..|w|] == w && t[..|w|] == t;
  }

  /** The outputs the last hypotheses could have given instead. */
  lemma OtherOutputs(m: Automaton, s: set<nat>, w: seq<nat>, t: seq<nat>, k: nat, expected: set<nat>, o: nat)
    requires Tracking(m, s, w, t, k, expected) && k < |w|
    ensures m.Valid() && w[k] < m.actions && IsWord(m, w[..k + 1]) && k < |t|
    ensures o in Possible(m, expected, w[k]) <==> Branch(m, s, w[..k + 1], t[..k] + [o]) != {}
  {
    TrackingIs(m, s, w, t, k, expected);
    assert w[..k + 1] == w[..k] + [w[k]];
    BranchNext(m, s, w[..k], t[..k], w[k], o);
  }

  /** The failing step. */
  method Fail(m: Automaton, w: seq<nat>, t: seq<nat>, k: nat, expected: set<nat>, ghost s: set<nat>)
    returns (expectedOutputs: seq<nat>)
    requires Tracking(m, s, w, t, k, expected) && k < |w| && m.Valid() && k < |t| && w[k] < m.actions
    requires Group(m, expected, w[k], t[k]) == {}
    ensures IsWord(m, w) && Failed(m, s, w, t, k + 1, t[k], expectedOutputs)
  {
    TrackingIs(m, s, w, t, k, expected);
    expectedOutputs := ExpectedOutputs(m, expected, w[k]);
    TrackNext(m, s, w, t, k, expected);
    forall o ensures o in expectedOutputs <==> Branch(m, s, w[..k + 1], t[..k] + [o]) != {} {
      OtherOutputs(m, s, w, t, k, expected, o);
    }
  }

  /** The loop over the completed steps.  It stops at the first step whose output no
      hypothesis gives. */
  method Track(m: Automaton, initial: set<nat>, w: seq<nat>, t: seq<nat>)
    returns (expected: set<nat>, failedStep: nat, observedOutput: nat, expectedOutputs: seq<nat>)
    requires IsSupport(m, initial) && IsWord(m, w) && |w| == |t| < NONE
    ensures expected == Branch(m, initial, w, t)
    ensures failedStep == NONE <==> expected != {}
    ensures expected != {} ==> observedOutput == NONE && expectedOutputs == []
    ensures expected == {} ==> Failed(m, initial, w, t, failedStep, observedOutput, expectedOutputs)
  {
    expected, failedStep, observedOutput, expectedOutputs := initial, NONE, NONE, [];
    TrackStarts(m, initial, w, t);
    for k := 0 to |w|
      invariant Tracking(m, initial, w, t, k, expected)
      invariant failedStep == observedOutput == NONE && expectedOutputs == []
    {
      TrackNext(m, initial, w, t, k, expected);
      var next := ApplyObserved(m, expected, w[k], t[k]);
      if |next| == 0 {
        expectedOutputs := Fail(m, w, t, k, expected, initial);
        return next, k + 1, t[k], expectedOutputs;
      }
      expected := next;
    }
    TrackEnds(m, initial, w, t, expected);
  }

  ghost predicate InRange(m: Automaton, w: seq<nat>, t: seq<nat>) {
    IsWord(m, w) && forall k | 0 <= k < |t| :: t[k] < m.outputs
  }

  /** The check of the whole consumed prefix. */
  method CheckRange(m: Automaton, word: seq<nat>, observed: seq<nat>) returns (ok: bool)
    requires |observed| <= |word|
    ensures ok == InRange(m, word[..|observed|], observed)
  {
    for k := 0 to |observed|
      invariant forall i | 0 <= i < k :: word[i] < m.actions && observed[i] < m.outputs
    {
      if word[k] >= m.actions || observed[k] >= m.outputs {
        assert word[..|observed|][k] == word[k];
        return false;
      }
    }
    ok := true;
  }

  /** sg_validate_observed_update */
  method ValidateObserved(m: Automaton, generation: nat, planGeneration: nat, initialIds: seq<nat>, word: seq<nat>,
                          completed: nat, observed: seq<nat>, reportedIds: seq<nat>, localizer: bool)
    returns (status: Status, result: Observation)
    requires m.Valid() && |word| < NONE
    ensures initialIds == [] || completed > |word| || |observed| != completed ==> status == InvalidArgument
    ensures initialIds != [] && |observed| == completed <= |word| ==>
              if planGeneration != generation
              then status == Ok && result == Observation(NOTHING.(decision := StaleGeneration), false, NONE, NONE, [])
              else
                && status == (if IdsValid(m.states, initialIds) && InRange(m, word[..completed], observed)
                                 && (localizer && reportedIds != [] ==> IdsValid(m.states, reportedIds)) then Ok
                                     else InvalidArgument)
                && (status.Ok? ==>
                     Observed(m, SupportSearch.IdSet(initialIds), word[..completed], observed,
                              if localizer then SupportSearch.IdSet(reportedIds) else {}, localizer, result))
  {
    result := Observation(NOTHING, false, NONE, NONE, []);
    if |initialIds| == 0 || completed > |word| || |observed| != completed {
      return InvalidArgument, result;
    }
    if planGeneration != generation {
      return Ok, result.(finding := NOTHING.(decision := StaleGeneration));
    }
    var inRange := CheckRange(m, word, observed);
    if !inRange {
      return InvalidArgument, result;
    }
    var initial, reported: set<nat>;
    status, initial := FromIds(m.states, initialIds);
    if status != Ok {
      return;
    }
    assert initialIds[0] in initial;
    reported := {};
    if localizer && |reportedIds| != 0 {
      status, reported := FromIds(m.states, reportedIds);
      if status != Ok {
        return;
      }
    }
    var w := word[..completed];
    var expected, failedStep, observedOutput, expectedOutputs := Track(m, initial, w, observed);
    BranchIsSupport(m, initial, w, observed);
    ComparedJudges(reported, expected);
    var decision := if failedStep != NONE then ModelViolation else if localizer then Compared(reported, expected)
        else Wait;
    var finding := Fill(m.states, expected, reported, decision);
    result := Observation(finding, failedStep == NONE, failedStep, observedOutput, expectedOutputs);
  }

  // ---------- What the findings are worth ----------

  /** A robot that really started in the support is never charged with a violation: its
      outputs are compatible and its state is among the expected ones.  A report of
      states it may be in is a violation only if it goes beyond those. */
  lemma NoFalseAlarm(m: Automaton, s: set<nat>, w: seq<nat>, x: nat, reported: set<nat>, localizer: bool,
                     r: Observation)
    requires IsSupport(m, s) && IsWord(m, w) && x in s && Observed(m, s, w, Trace(m, x, w), reported, localizer, r)
    ensures r.compatible && Run(m, x, w) in r.finding.expected
    ensures r.finding.decision == ModelViolation <==> localizer && exists y :: y in reported && y !in r.finding.expected
  {
    assert Gives(m, x, w, Trace(m, x, w), Run(m, x, w));
    assert Run(m, x, w) in Branch(m, s, w, Trace(m, x, w));
  }

  /** Seeing outputs only narrows what is expected. */
  lemma OutputsNarrow(m: Automaton, s: set<nat>, w: seq<nat>, t: seq<nat>, reported: set<nat>, localizer: bool,
                      r: Observation, f: Finding)
    requires IsSupport(m, s) && IsWord(m, w)
    requires Observed(m, s, w, t, reported, localizer, r) && Found(m, s, w, reported, localizer, f)
    ensures forall y | y in r.finding.expected :: y in f.expected
  {
    forall y | y in r.finding.expected ensures y in f.expected {
      BranchesCoverImage(m, s, w, y);
    }
  }
}
