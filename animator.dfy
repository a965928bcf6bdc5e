/** The animator component: a state machine over animation states whose
    transitions are guarded by integer conditions on named variables, and
    the animator file that stores it. */
module Animators {
  import opened Common
  import opened Glm
  import opened Yaml
  import YamlUtils
  import opened MeshData

  const K_STATES := "States"
  const K_TRANSITIONS := "Transitions"
  const K_INPUT_STATE := "To"
  const K_OUTPUT_STATE := "From"
  const K_CONDITIONS := "Conditions"
  const K_VARIABLES := "Variables"
  const K_VARIABLE_NAME := "Name"
  const K_VARIABLE_VALUE := "Value"

  /** An animation state: the guid of its animation file, whether it plays
      once before it may be left, and its display name. */
  datatype State = State(guid: string, playOnce: bool, name: string)

  /** `operand1 operator operand2`; an operand whose index is -1 is its
      literal, any other index names a variable. */
  datatype Condition = Condition(variable1Idx: int, variable1: int, operator: string, variable2Idx: int, variable2: int)

  /** A transition leaves state `outputStateID` for state `inputStateID`
      when all its conditions hold. */
  datatype Transition = Transition(inputStateID: int, outputStateID: int, conditions: seq<Condition>, blend: bool)

  /** The contents of an animator file. */
  datatype AnimatorFile = AnimatorFile(states: seq<State>, transitions: seq<Transition>, variableNames: seq<string>, variableValues: seq<int>)

  /** The comparison operators a condition may use. */
  const OPERATORS: set<string> := {"==", ">", "<", ">=", "<=", "!="}

  // ---------------------------------------------------------------------
  // Conditions and transition selection

  predicate Readable(idx: int, values: seq<int>)
  {
    idx == -1 || 0 <= idx < |values|
  }

  /** The value of an operand: its literal, or `values.at(idx)`, which
      throws when the index is out of range. */
  function Operand(idx: int, literal: int, values: seq<int>): Result<int>
  {
    if idx == -1 then Ok(literal)
    else if 0 <= idx < |values| then Ok(values[idx])
    else Fatal("std::out_of_range")
  }

  function Compare(op: string, a: int, b: int): Result<bool>
  {
    if op == "==" then Ok(a == b)
    else if op == ">" then Ok(a > b)
    else if op == "<" then Ok(a < b)
    else if op == ">=" then Ok(a >= b)
    else if op == "<=" then Ok(a <= b)
    else if op == "!=" then Ok(a != b)
    else Fatal("Unknown operator for animator state machine " + op)
  }

  /** Whether a condition holds. It fails exactly when an operand index is
      out of range or the operator is unknown. */
  function Evaluate(c: Condition, values: seq<int>): (r: Result<bool>)
    ensures r.Ok? <==> Readable(c.variable1Idx, values) && Readable(c.variable2Idx, values) && c.operator in OPERATORS
    ensures r.Ok? && c.variable1Idx == -1 && c.variable2Idx == -1 && c.operator == "==" ==> r.value == (c.variable1 == c.variable2)
  {
    var a :- Operand(c.variable1Idx, c.variable1, values);
    var b :- Operand(c.variable2Idx, c.variable2, values);
    Compare(c.operator, a, b)
  }

  /** "!=", "<=" and ">=" are the negations of "==", ">" and "<". */
  lemma NegatedOperators(c: Condition, values: seq<int>)
    requires Evaluate(c.(operator := "=="), values).Ok?
    ensures Evaluate(c.(operator := "!="), values) == Ok(!Evaluate(c.(operator := "=="), values).value)
    ensures Evaluate(c.(operator := "<="), values) == Ok(!Evaluate(c.(operator := ">"), values).value)
    ensures Evaluate(c.(operator := ">="), values) == Ok(!Evaluate(c.(operator := "<"), values).value)
  {
  }

  /** Every condition is evaluated, in order; the first failure is the
      result, otherwise whether all of them hold. An empty list holds. */
  function AllPass(cs: seq<Condition>, values: seq<int>): (r: Result<bool>)
    ensures r.Ok? <==> forall i | 0 <= i < |cs| :: Evaluate(cs[i], values).Ok?
    ensures r.Ok? ==> (r.value <==> forall i | 0 <= i < |cs| :: Evaluate(cs[i], values) == Ok(true))
    ensures r.Fatal? ==> exists i | 0 <= i < |cs| :: r == Evaluate(cs[i], values) && forall j | 0 <= j < i :: Evaluate(cs[j], values).Ok?
  {
    if cs == [] then Ok(true)
    else
      var p :- Evaluate(cs[0], values);
      var rest := AllPass(cs[1..], values);
      assert forall i | 1 <= i < |cs| :: cs[i] == cs[1..][i - 1];
      if rest.Fatal? then
        var k :| 0 <= k < |cs[1..]| && rest == Evaluate(cs[1..][k], values) && forall j | 0 <= j < k :: Evaluate(cs[1..][j], values).Ok?;
        assert cs[k + 1] == cs[1..][k];
        rest
      else
        Ok(p && rest.value)
  }

  /** A condition that fails, after conditions that evaluate, is the
      failure of the whole list. */
  lemma {:induction false} AllPassFails(cs: seq<Condition>, values: seq<int>, i: nat)
    requires i < |cs| && Evaluate(cs[i], values).Fatal?
    requires forall j | 0 <= j < i :: Evaluate(cs[j], values).Ok?
    ensures AllPass(cs, values) == Evaluate(cs[i], values)
  {
    if i > 0 {
      assert forall j | 0 <= j < i - 1 :: cs[1..][j] == cs[j + 1];
      AllPassFails(cs[1..], values, i - 1);
      assert cs[1..][i - 1] == cs[i];
    }
  }

  /** The loop that evaluates each condition of a transition. */
  method ConditionsPass(cs: seq<Condition>, values: seq<int>) returns (r: Result<bool>)
    ensures r == AllPass(cs, values)
  {
    var allPassed := true;
    for i := 0 to |cs|
      invariant forall j | 0 <= j < i :: Evaluate(cs[j], values).Ok?
      invariant allPassed <==> forall j | 0 <= j < i :: Evaluate(cs[j], values) == Ok(true)
    {
      var passed := Evaluate(cs[i], values);
      if passed.Fatal? {
        AllPassFails(cs, values, i);
        return passed;
      }
      if !passed.value {
        allPassed := false;
      }
    }
    r := Ok(allPassed);
  }

  predicate Leaves(t: Transition, from: int)
  {
    t.outputStateID == from
  }

  /** `t` leaves `from` and all its conditions hold. */
  predicate Taken(t: Transition, from: int, values: seq<int>)
  {
    Leaves(t, from) && AllPass(t.conditions, values) == Ok(true)
  }

  /** `t` does not leave `from`, or one of its conditions fails. */
  predicate PassedOver(t: Transition, from: int, values: seq<int>)
  {
    !Leaves(t, from) || AllPass(t.conditions, values) == Ok(false)
  }

  /** Transition `i` is the first one, in list order, taken from `from`. */
  predicate FirstTaken(ts: seq<Transition>, from: int, values: seq<int>, i: int)
  {
    0 <= i < |ts| && Taken(ts[i], from, values) && forall j | 0 <= j < i :: PassedOver(ts[j], from, values)
  }

  /** The scan of `ts[k..]` for the first transition taken from `from`. */
  function SelectFrom(ts: seq<Transition>, from: int, values: seq<int>, k: nat): (r: Result<Option<nat>>)
    requires k <= |ts|
    ensures r.Ok? && r.value.Some? ==>
      && k <= r.value.value < |ts|
      && Taken(ts[r.value.value], from, values)
      && forall j | k <= j < r.value.value :: PassedOver(ts[j], from, values)
    ensures r == Ok(None) ==> forall j | k <= j < |ts| :: PassedOver(ts[j], from, values)
    ensures r.Fatal? ==> exists j | k <= j < |ts| :: Leaves(ts[j], from) && AllPass(ts[j].conditions, values).Fatal?
    decreases |ts| - k
  {
    if k == |ts| then Ok(None)
    else if ts[k].outputStateID != from then SelectFrom(ts, from, values, k + 1)
    else
      var passed :- AllPass(ts[k].conditions, values);
      if passed then Ok(Some(k)) else SelectFrom(ts, from, values, k + 1)
  }

  /** The loop over the transitions, in list order, that stops at the
      first one taken from `from`. */
  method SelectLoop(ts: seq<Transition>, from: int, values: seq<int>) returns (r: Result<Option<nat>>)
    ensures r == SelectFrom(ts, from, values, 0)
  {
    var i := 0;
    while i < |ts|
      invariant 0 <= i <= |ts|
      invariant SelectFrom(ts, from, values, 0) == SelectFrom(ts, from, values, i)
    {
      if ts[i].outputStateID == from {
        var passed := ConditionsPass(ts[i].conditions, values);
        if passed.Fatal? {
          return Fatal(passed.message);
        }
        if passed.value {
          return Ok(Some(i));
        }
      }
      i := i + 1;
    }
    r := Ok(None);
  }

  /** The scan finds the first taken transition. */
  lemma {:induction false} SelectFindsFirst(ts: seq<Transition>, from: int, values: seq<int>, k: nat, i: nat)
    requires k <= i && FirstTaken(ts, from, values, i)
    ensures SelectFrom(ts, from, values, k) == Ok(Some(i))
    decreases i - k
  {
    if k < i {
      assert PassedOver(ts[k], from, values);
      SelectFindsFirst(ts, from, values, k + 1, i);
    }
  }

  /** With every transition passed over, the scan selects none. */
  lemma {:induction false} SelectFindsNone(ts: seq<Transition>, from: int, values: seq<int>, k: nat)
    requires k <= |ts| && forall j | k <= j < |ts| :: PassedOver(ts[j], from, values)
    ensures SelectFrom(ts, from, values, k) == Ok(None)
    decreases |ts| - k
  {
    if k < |ts| {
      assert PassedOver(ts[k], from, values);
      SelectFindsNone(ts, from, values, k + 1);
    }
  }

  /** The part of the animator that `updateStateMachine` changes. */
  datatype Machine = Machine(nextState: int, blendFactor: real, numTimesAnimationPlayed: int, currentTimeLayered: real, currentTimeBase: real)

  /** How often a state must have played before it may be left. */
  function RequiredPlays(s: State): int
  {
    if s.playOnce then 1 else 0
  }

  /** Taking transition `t`: move on to its input state, blend into it or
      restart the clocks, and reset the play count. */
  function Fire(m: Machine, t: Transition): Machine
  {
    Machine(t.inputStateID, if t.blend then 0.0 else 1.0, 0,
            if t.blend then m.currentTimeLayered else 0.0,
            if t.blend then m.currentTimeBase else 0.0)
  }

  /** The machine is settled in state `current`: it is not blending into
      another state. */
  predicate Settled(m: Machine, current: int)
  {
    current != -1 && current == m.nextState
  }

  /** What the source needs of its caller: when a transition is selected,
      `states[currentState]` exists. */
  predicate StateIndexed(m: Machine, current: int, states: seq<State>, ts: seq<Transition>, values: seq<int>)
  {
    var selected := SelectFrom(ts, current, values, 0);
    Settled(m, current) && selected.Ok? && selected.value.Some? ==> 0 <= current < |states|
  }

  /** One state-machine update. */
  function Step(m: Machine, current: int, states: seq<State>, ts: seq<Transition>, values: seq<int>): (r: Result<Machine>)
    requires StateIndexed(m, current, states, ts, values)
    ensures !Settled(m, current) ==> r == Ok(m)
    ensures r.Fatal? ==> exists j | 0 <= j < |ts| :: Leaves(ts[j], current) && AllPass(ts[j].conditions, values).Fatal?
    ensures r.Ok? && r.value != m ==> exists i :: FirstTaken(ts, current, values, i) && r.value == Fire(m, ts[i])
  {
    if !Settled(m, current) then Ok(m)
    else
      var selected :- SelectFrom(ts, current, values, 0);
      match selected
      case None => Ok(m)
      case Some(i) =>
        if m.numTimesAnimationPlayed >= RequiredPlays(states[current]) then Ok(Fire(m, ts[i])) else Ok(m)
  }

  /** The first taken transition fires once the current state has played
      often enough. */
  lemma StepFires(m: Machine, current: int, states: seq<State>, ts: seq<Transition>, values: seq<int>, i: nat)
    requires Settled(m, current) && 0 <= current < |states| && FirstTaken(ts, current, values, i)
    requires m.numTimesAnimationPlayed >= RequiredPlays(states[current])
    ensures StateIndexed(m, current, states, ts, values)
    ensures Step(m, current, states, ts, values) == Ok(Fire(m, ts[i]))
  {
    SelectFindsFirst(ts, current, values, 0, i);
  }

  /** A play-once state that has not finished playing blocks the first
      taken transition, and no later transition is tried. */
  lemma StepBlocked(m: Machine, current: int, states: seq<State>, ts: seq<Transition>, values: seq<int>, i: nat)
    requires Settled(m, current) && 0 <= current < |states| && FirstTaken(ts, current, values, i)
    requires m.numTimesAnimationPlayed < RequiredPlays(states[current])
    ensures StateIndexed(m, current, states, ts, values)
    ensures Step(m, current, states, ts, values) == Ok(m)
  {
    SelectFindsFirst(ts, current, values, 0, i);
  }

  /** When no transition is taken the machine stays as it is. */
  lemma StepStays(m: Machine, current: int, states: seq<State>, ts: seq<Transition>, values: seq<int>)
    requires forall j | 0 <= j < |ts| :: PassedOver(ts[j], current, values)
    ensures StateIndexed(m, current, states, ts, values)
    ensures Step(m, current, states, ts, values) == Ok(m)
  {
    SelectFindsNone(ts, current, values, 0);
  }

  // ---------------------------------------------------------------------
  // Variables

  /** `std::find`: the index of the first variable called `name`, or -1. */
  function IndexOfName(names: seq<string>, name: string): (r: int)
    ensures -1 <= r < |names|
    ensures r == -1 <==> name !in names
    ensures r != -1 ==> names[r] == name && forall j | 0 <= j < r :: names[j] != name
  {
    if names == [] then -1
    else if names[0] == name then 0
    else
      var k := IndexOfName(names[1..], name);
      assert forall j | 1 <= j < |names| :: names[j] == names[1..][j - 1];
      if k == -1 then -1 else k + 1
  }

  // ---------------------------------------------------------------------
  // The animator file

  function StateNode(s: State): Node
  {
    Mapping(map["Guid" := StrNode(s.guid), "PlayOnce" := BoolNode(s.playOnce), "Name" := StrNode(s.name)])
  }

  function ConditionNode(c: Condition): Node
  {
    Mapping(map["Variable1Idx" := IntNode(c.variable1Idx), "Variable1" := IntNode(c.variable1),
                "Operator" := StrNode(c.operator),
                "Variable2Idx" := IntNode(c.variable2Idx), "Variable2" := IntNode(c.variable2)])
  }

  function ConditionNodes(cs: seq<Condition>): seq<Node>
  {
    seq(|cs|, i requires 0 <= i < |cs| => ConditionNode(cs[i]))
  }

  function TransitionNode(t: Transition): Node
  {
    Mapping(map[K_INPUT_STATE := IntNode(t.inputStateID), K_OUTPUT_STATE := IntNode(t.outputStateID),
                K_CONDITIONS := Sequence(ConditionNodes(t.conditions)),
                "Blend" := BoolNode(t.blend)])
  }

  function VariableNode(name: string, value: int): Node
  {
    Mapping(map[K_VARIABLE_NAME := StrNode(name), K_VARIABLE_VALUE := IntNode(value)])
  }

  /** The document the editor writes for an animator. */
  function EncodeAnimatorFile(f: AnimatorFile): (doc: Node)
    requires |f.variableNames| <= |f.variableValues|
    ensures doc.Mapping? && doc.entries.Keys == {K_STATES, K_TRANSITIONS, K_VARIABLES}
    ensures Get(doc, K_STATES).Sequence? && |Get(doc, K_STATES).items| == |f.states|
    ensures Get(doc, K_TRANSITIONS).Sequence? && |Get(doc, K_TRANSITIONS).items| == |f.transitions|
    ensures Get(doc, K_VARIABLES).Sequence? && |Get(doc, K_VARIABLES).items| == |f.variableNames|
  {
    Mapping(map[
      K_STATES := Sequence(seq(|f.states|, i requires 0 <= i < |f.states| => StateNode(f.states[i]))),
      K_TRANSITIONS := Sequence(seq(|f.transitions|, i requires 0 <= i < |f.transitions| => TransitionNode(f.transitions[i]))),
      K_VARIABLES := Sequence(seq(|f.variableNames|, i requires 0 <= i < |f.variableNames| => VariableNode(f.variableNames[i], f.variableValues[i])))])
  }

  function DecodeState(n: Node): Result<State>
  {
    var guid :- AsString(Get(n, "Guid"));
    var playOnce :- AsBool(Get(n, "PlayOnce"));
    var name :- AsString(Get(n, "Name"));
    Ok(State(guid, playOnce, name))
  }

  /** An optional integer field: its default when the key is absent. */
  function IntOr(n: Node, key: string, default: int): Result<int>
  {
    if Has(n, key) then AsInt(Get(n, key)) else Ok(default)
  }

  /** A condition; every missing field takes its default: no variable,
      literal 0, operator "==". */
  function DecodeCondition(n: Node): (r: Result<Condition>)
    ensures n == Mapping(map[]) ==> r == Ok(Condition(-1, 0, "==", -1, 0))
  {
    var variable1Idx :- IntOr(n, "Variable1Idx", -1);
    var variable1 :- IntOr(n, "Variable1", 0);
    var operator :- if Has(n, "Operator") then AsString(Get(n, "Operator")) else Ok("==");
    var variable2Idx :- IntOr(n, "Variable2Idx", -1);
    var variable2 :- IntOr(n, "Variable2", 0);
    Ok(Condition(variable1Idx, variable1, operator, variable2Idx, variable2))
  }

  function DecodeTransition(n: Node): Result<Transition>
  {
    var conditionNodes :- AsSequence(Get(n, K_CONDITIONS));
    var conditions :- DecodeEach(conditionNodes, DecodeCondition);
    var input :- AsInt(Get(n, K_INPUT_STATE));
    var output :- AsInt(Get(n, K_OUTPUT_STATE));
    var blend :- AsBool(Get(n, "Blend"));
    Ok(Transition(input, output, conditions, blend))
  }

  function DecodeVariable(n: Node): Result<(string, int)>
  {
    var name :- AsString(Get(n, K_VARIABLE_NAME));
    var value :- AsInt(Get(n, K_VARIABLE_VALUE));
    Ok((name, value))
  }

  function Names(vs: seq<(string, int)>): seq<string>
  {
    seq(|vs|, i requires 0 <= i < |vs| => vs[i].0)
  }

  function Values(vs: seq<(string, int)>): seq<int>
  {
    seq(|vs|, i requires 0 <= i < |vs| => vs[i].1)
  }

  /** Reading an animator file: states, then transitions, then variables;
      the first conversion that throws is the result. */
  function DecodeAnimatorFile(doc: Node): (r: Result<AnimatorFile>)
    ensures r.Ok? ==> |r.value.variableNames| == |r.value.variableValues|
    ensures r.Ok? ==> Get(doc, K_STATES).Sequence? && |r.value.states| == |Get(doc, K_STATES).items|
    ensures r.Ok? ==> Get(doc, K_TRANSITIONS).Sequence? && |r.value.transitions| == |Get(doc, K_TRANSITIONS).items|
  {
    var stateNodes :- AsSequence(Get(doc, K_STATES));
    var states :- DecodeEach(stateNodes, DecodeState);
    var transitionNodes :- AsSequence(Get(doc, K_TRANSITIONS));
    var transitions :- DecodeEach(transitionNodes, DecodeTransition);
    var variableNodes :- AsSequence(Get(doc, K_VARIABLES));
    var variables :- DecodeEach(variableNodes, DecodeVariable);
    Ok(AnimatorFile(states, transitions, Names(variables), Values(variables)))
  }

  lemma StateRoundTrip(s: State)
    ensures DecodeState(StateNode(s)) == Ok(s)
  {
    var n := StateNode(s);
    assert Get(n, "Guid") == StrNode(s.guid);
    assert Get(n, "PlayOnce") == BoolNode(s.playOnce);
    assert Get(n, "Name") == StrNode(s.name);
  }

  lemma ConditionRoundTrip(c: Condition)
    ensures DecodeCondition(ConditionNode(c)) == Ok(c)
  {
    var n := ConditionNode(c);
    assert Get(n, "Variable1Idx") == IntNode(c.variable1Idx);
    assert Get(n, "Variable1") == IntNode(c.variable1);
    assert Get(n, "Operator") == StrNode(c.operator);
    assert Get(n, "Variable2Idx") == IntNode(c.variable2Idx);
    assert Get(n, "Variable2") == IntNode(c.variable2);
  }

  lemma VariableRoundTrip(name: string, value: int)
    ensures DecodeVariable(VariableNode(name, value)) == Ok((name, value))
  {
    var n := VariableNode(name, value);
    assert Get(n, K_VARIABLE_NAME) == StrNode(name);
    assert Get(n, K_VARIABLE_VALUE) == IntNode(value);
  }

  lemma ConditionsRoundTrip(cs: seq<Condition>)
    ensures DecodeEach(ConditionNodes(cs), DecodeCondition) == Ok(cs)
  {
    var items := ConditionNodes(cs);
    forall i | 0 <= i < |cs|
      ensures DecodeCondition(items[i]) == Ok(cs[i])
    {
      ConditionRoundTrip(cs[i]);
    }
    DecodeEachInverse(items, cs, DecodeCondition);
  }

  lemma TransitionRoundTrip(t: Transition)
    ensures DecodeTransition(TransitionNode(t)) == Ok(t)
  {
    var n := TransitionNode(t);
    assert AsSequence(Get(n, K_CONDITIONS)) == Ok(ConditionNodes(t.conditions));
    ConditionsRoundTrip(t.conditions);
    assert AsInt(Get(n, K_INPUT_STATE)) == Ok(t.inputStateID);
    assert AsInt(Get(n, K_OUTPUT_STATE)) == Ok(t.outputStateID);
    assert AsBool(Get(n, "Blend")) == Ok(t.blend);
  }

  /** Reading back what the editor writes gives the same animator. */
  lemma RoundTrip(f: AnimatorFile)
    requires |f.variableNames| == |f.variableValues|
    ensures DecodeAnimatorFile(EncodeAnimatorFile(f)) == Ok(f)
  {
    var doc := EncodeAnimatorFile(f);
    var stateNodes := Get(doc, K_STATES).items;
    forall i | 0 <= i < |f.states|
      ensures DecodeState(stateNodes[i]) == Ok(f.states[i])
    {
      StateRoundTrip(f.states[i]);
    }
    DecodeEachInverse(stateNodes, f.states, DecodeState);
    var transitionNodes := Get(doc, K_TRANSITIONS).items;
    forall i | 0 <= i < |f.transitions|
      ensures DecodeTransition(transitionNodes[i]) == Ok(f.transitions[i])
    {
      TransitionRoundTrip(f.transitions[i]);
    }
    DecodeEachInverse(transitionNodes, f.transitions, DecodeTransition);
    var variableNodes := Get(doc, K_VARIABLES).items;
    var pairs := seq(|f.variableNames|, i requires 0 <= i < |f.variableNames| => (f.variableNames[i], f.variableValues[i]));
    forall i | 0 <= i < |pairs|
      ensures DecodeVariable(variableNodes[i]) == Ok(pairs[i])
    {
      VariableRoundTrip(f.variableNames[i], f.variableValues[i]);
    }
    DecodeEachInverse(variableNodes, pairs, DecodeVariable);
    assert Names(pairs) == f.variableNames;
    assert Values(pairs) == f.variableValues;
  }

  /** The loops that read an animator file: each list is converted node
      by node, in file order. */
  method ReadAnimatorFile(doc: Node) returns (r: Result<AnimatorFile>)
    ensures r == DecodeAnimatorFile(doc)
  {
    var stateNodes :- AsSequence(Get(doc, K_STATES));
    var states :- DecodeLoop(stateNodes, DecodeState);
    var transitionNodes :- AsSequence(Get(doc, K_TRANSITIONS));
    var transitions :- DecodeLoop(transitionNodes, DecodeTransition);
    var variableNodes :- AsSequence(Get(doc, K_VARIABLES));
    var variables :- DecodeLoop(variableNodes, DecodeVariable);
    r := Ok(AnimatorFile(states, transitions, Names(variables), Values(variables)));
  }

  /** `m_FinalBoneMatrices`: `n` identity matrices. */
  method IdentityMatrices(n: nat) returns (ms: seq<Mat4>)
    ensures |ms| == n && forall i | 0 <= i < n :: ms[i] == YamlUtils.Identity()
  {
    ms := [];
    for i := 0 to n
      invariant |ms| == i && forall j | 0 <= j < i :: ms[j] == YamlUtils.Identity()
    {
      ms := ms + [YamlUtils.Identity()];
    }
  }

  // ---------------------------------------------------------------------
  // The component

  class Animator {
    var guid: string
    var blendFactor: real
    var currentState: int
    var nextState: int
    var currentTime: real
    var numTimesAnimationPlayed: int
    var needsToLoadAnimations: bool
    var needsToFindBoneEntities: bool
    var states: seq<State>
    var transitions: seq<Transition>
    var variableNames: seq<string>
    var variableValues: seq<int>
    var currentTimeLayered: real
    var currentTimeBase: real
    var finalBoneMatrices: seq<Mat4>

    /** A newly built animator for file `g`: no state yet, fully blended,
      identity bone matrices, and everything still to be loaded. */
    ghost predicate Initial(g: string)
      reads this
    {
      && guid == g && blendFactor == 1.0 && currentState == -1 && nextState == -1
      && currentTime == 0.0 && numTimesAnimationPlayed == 0
      && needsToLoadAnimations && needsToFindBoneEntities
      && states == [] && transitions == [] && variableNames == [] && variableValues == []
      && currentTimeLayered == 0.0 && currentTimeBase == 0.0
      && |finalBoneMatrices| == MAX_BONES
      && forall i | 0 <= i < MAX_BONES :: finalBoneMatrices[i] == YamlUtils.Identity()
    }

    constructor ()
      ensures Initial("")
    {
      var matrices := IdentityMatrices(MAX_BONES);
      guid := "";
      blendFactor := 1.0;
      currentState := -1;
      nextState := -1;
      currentTime := 0.0;
      numTimesAnimationPlayed := 0;
      needsToLoadAnimations := true;
      needsToFindBoneEntities := true;
      states := [];
      transitions := [];
      variableNames := [];
      variableValues := [];
      currentTimeLayered := 0.0;
      currentTimeBase := 0.0;
      finalBoneMatrices := matrices;
    }

    constructor WithGuid(animatorGuid: string)
      ensures Initial(animatorGuid)
    {
      var matrices := IdentityMatrices(MAX_BONES);
      guid := animatorGuid;
      blendFactor := 1.0;
      currentState := -1;
      nextState := -1;
      currentTime := 0.0;
      numTimesAnimationPlayed := 0;
      needsToLoadAnimations := true;
      needsToFindBoneEntities := true;
      states := [];
      transitions := [];
      variableNames := [];
      variableValues := [];
      currentTimeLayered := 0.0;
      currentTimeBase := 0.0;
      finalBoneMatrices := matrices;
    }

    function MachineOf(): Machine
      reads this
    {
      Machine(nextState, blendFactor, numTimesAnimationPlayed, currentTimeLayered, currentTimeBase)
    }

    method SetMachine(m: Machine)
      modifies this`nextState, this`blendFactor, this`numTimesAnimationPlayed, this`currentTimeLayered, this`currentTimeBase
      ensures MachineOf() == m
    {
      nextState := m.nextState;
      blendFactor := m.blendFactor;
      numTimesAnimationPlayed := m.numTimesAnimationPlayed;
      currentTimeLayered := m.currentTimeLayered;
      currentTimeBase := m.currentTimeBase;
    }

    /** `updateStateMachine`: when settled, scan the transitions leaving
      the current state in list order; the first whose conditions all
      hold ends the scan, and fires if the state has played often
      enough. */
    method UpdateStateMachine() returns (r: Result<()>)
      requires StateIndexed(MachineOf(), currentState, states, transitions, variableValues)
      modifies this`nextState, this`blendFactor, this`numTimesAnimationPlayed, this`currentTimeLayered, this`currentTimeBase
      ensures var s := Step(old(MachineOf()), currentState, states, transitions, variableValues);
        (r.Fatal? <==> s.Fatal?) && (r.Ok? ==> MachineOf() == s.value)
    {
      if currentState == -1 || currentState != nextState {
        return Ok(());
      }
      var selected := SelectLoop(transitions, currentState, variableValues);
      if selected.Fatal? {
        return Fatal(selected.message);
      }
      if selected.value.Some? && numTimesAnimationPlayed >= RequiredPlays(states[currentState]) {
        SetMachine(Fire(MachineOf(), transitions[selected.value.value]));
      }
      r := Ok(());
    }

    /** `setVariable`: sets the first variable called `name` and returns
      its index; an unknown name returns -1 and changes nothing. */
    method SetVariable(name: string, value: int) returns (index: int)
      requires IndexOfName(variableNames, name) < |variableValues|
      modifies this`variableValues
      ensures index == IndexOfName(variableNames, name)
      ensures variableValues == if index == -1 then old(variableValues) else old(variableValues)[index := value]
    {
      var i := 0;
      while i < |variableNames|
        invariant 0 <= i <= |variableNames|
        invariant forall j | 0 <= j < i :: variableNames[j] != name
      {
        if variableNames[i] == name {
          variableValues := variableValues[i := value];
          return i;
        }
        i := i + 1;
      }
      index := -1;
    }

    /** `getCurrentStateName`: "" before any state is entered; otherwise
      `states.at(currentState)`, which throws when out of range. */
    function CurrentStateName(): (r: Result<string>)
      reads this
      ensures currentState == -1 ==> r == Ok("")
      ensures currentState != -1 ==> (r.Ok? <==> 0 <= currentState < |states|)
      ensures r.Ok? && currentState != -1 ==> r.value == states[currentState].name
    {
      if currentState == -1 then Ok("")
      else if 0 <= currentState < |states| then Ok(states[currentState].name)
      else Fatal("std::out_of_range")
    }

    function FileOf(): AnimatorFile
      reads this
    {
      AnimatorFile(states, transitions, variableNames, variableValues)
    }

    method SetFile(f: AnimatorFile)
      modifies this`states, this`transitions, this`variableNames, this`variableValues
      ensures FileOf() == f
    {
      states := f.states;
      transitions := f.transitions;
      variableNames := f.variableNames;
      variableValues := f.variableValues;
    }

    /** `loadStateMachine`, given the parsed animator file: nothing happens
      without a guid; otherwise the machine restarts in state 0 with
      exactly the states, transitions and variables of the file. */
    method LoadStateMachine(doc: Node) returns (r: Result<()>)
      modifies this`currentState, this`nextState, this`states, this`transitions, this`variableNames, this`variableValues
      modifies this`needsToLoadAnimations, this`needsToFindBoneEntities
      ensures old(guid) == "" ==> r == Ok(()) && unchanged(this)
      ensures old(guid) != "" ==> (r.Fatal? <==> DecodeAnimatorFile(doc).Fatal?)
      ensures old(guid) != "" && r.Ok? ==>
        && FileOf() == DecodeAnimatorFile(doc).value
        && currentState == 0 && nextState == 0
        && !needsToLoadAnimations && !needsToFindBoneEntities
    {
      if guid == "" {
        return Ok(());
      }
      currentState := 0;
      nextState := 0;
      SetFile(AnimatorFile([], [], [], []));
      var file :- ReadAnimatorFile(doc);
      SetFile(file);
      needsToFindBoneEntities := false;
      needsToLoadAnimations := false;
      r := Ok(());
    }
  }
}
