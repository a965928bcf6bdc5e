/** The animator editor: a node graph in which each state is a node with an
    input and an output pin, and each transition is a link. Editing states,
    transitions, conditions and variables must keep the indices that
    transitions and conditions hold consistent with the lists they index. */
module AnimatorGraphs {
  import opened Common
  import opened Yaml
  import opened Animators

  // ---------------------------------------------------------------------
  // Node and pin ids

  /** State `i` is node 3i, between input pin 3i-1 and output pin 3i+1. */
  function NodeAndPinIDs(stateID: int): (int, int, int)
  {
    (3 * stateID - 1, 3 * stateID, 3 * stateID + 1)
  }

  /** The state a pin belongs to, with C++'s truncating `/` and `%`. A node
      id is fatal, and so is a remainder of -2. */
  function StateForPinID(pinID: int): Result<int>
  {
    var m := CppMod(pinID, 3);
    if m == 0 then Fatal("NodeID, not PinID")
    else if m == 2 then Ok(CppDiv(pinID + 1, 3))
    else if m == 1 then Ok(CppDiv(pinID - 1, 3))
    else if m == -1 then Ok(0)
    else Fatal("Invalid state -2")
  }

  /** The state a node stands for; a pin id is fatal. */
  function StateForNodeID(nodeID: int): Result<int>
  {
    if CppMod(nodeID, 3) != 0 then Fatal("PinID, not NodeID") else Ok(CppDiv(nodeID, 3))
  }

  /** The ids of state `i` lead back to `i`: both pins, including the input
      pin -1 of state 0, and the node. */
  lemma {:induction false} IDsLeadBack(i: nat)
    ensures StateForPinID(NodeAndPinIDs(i).0) == Ok(i)
    ensures StateForNodeID(NodeAndPinIDs(i).1) == Ok(i)
    ensures StateForPinID(NodeAndPinIDs(i).2) == Ok(i)
  {
    assert (3 * i) % 3 == 0 && (3 * i) / 3 == i;
    assert (3 * i + 1) % 3 == 1 && (3 * i) / 3 == i;
    if i > 0 {
      assert 3 * i - 1 == 3 * (i - 1) + 2;
      assert (3 * (i - 1) + 2) % 3 == 2;
      assert (3 * i) / 3 == i;
    }
  }

  /** A node id is never taken for a pin, nor a pin id for a node. */
  lemma {:induction false} NodesAreNotPins(i: int)
    ensures StateForPinID(3 * i).Fatal?
    ensures StateForNodeID(3 * i - 1).Fatal? && StateForNodeID(3 * i + 1).Fatal?
  {
    if i >= 0 {
      assert (3 * i) % 3 == 0;
      assert (3 * i + 1) % 3 == 1;
      if i > 0 {
        assert (3 * (i - 1) + 2) % 3 == 2;
      }
    } else {
      assert (-(3 * i)) % 3 == 0;
      assert -(3 * i + 1) == 3 * (-i - 1) + 2;
      assert (3 * (-i - 1) + 2) % 3 == 2;
      assert -(3 * i - 1) == 3 * (-i) + 1;
      assert (3 * (-i) + 1) % 3 == 1;
    }
  }

  // ---------------------------------------------------------------------
  // Creating a link

  const UINTPTR_MOD := 0x1_0000_0000_0000_0000

  /** The pin ids the editor hands out are `int`s. */
  predicate IntPin(p: int)
  {
    -0x8000_0000 <= p < 0x8000_0000
  }

  /** The id of one of the pins of `n` states: 3i-1 or 3i+1 for some i < n. */
  predicate PinOf(p: int, n: int)
  {
    -1 <= p <= 3 * n - 2 && p % 3 != 0
  }

  /** A pin id as the node editor keeps it, an unsigned 64-bit integer. */
  function PinBits(p: int): (u: nat)
    requires IntPin(p)
    ensures u < UINTPTR_MOD && (u - p) % UINTPTR_MOD == 0
  {
    if p < 0 then p + UINTPTR_MOD else p
  }

  /** `(pinId.Get() + 2) % 3` on the unsigned id, the sum wrapping at 2^64:
    0 for an output ("From") pin, 1 for an input ("To") pin. */
  function PinCount(p: int): (k: nat)
    requires IntPin(p)
    ensures k < 3
  {
    ((PinBits(p) + 2) % UINTPTR_MOD) % 3
  }

  /** The transition a link dragged from `inputPin` to `outputPin` creates:
    none unless it runs from a "From" pin to a "To" pin; then it leaves the
    state of the "From" pin for the state of the "To" pin, with no
    conditions and no blending. */
  function NewLink(inputPin: int, outputPin: int): (r: Result<Option<Transition>>)
    requires IntPin(inputPin) && IntPin(outputPin)
    ensures r.Ok? && r.value.Some? ==> PinCount(inputPin) == 0 && PinCount(outputPin) == 1
    ensures r.Ok? && r.value.Some? ==> r.value.value.conditions == [] && !r.value.value.blend
    ensures !(PinCount(inputPin) == 0 && PinCount(outputPin) == 1) ==> r == Ok(None)
  {
    if PinCount(inputPin) == 0 && PinCount(outputPin) == 1 then
      var state1 :- StateForPinID(outputPin);
      var state2 :- StateForPinID(inputPin);
      Ok(Some(Transition(state1, state2, [], false)))
    else
      Ok(None)
  }

  /** A pin of one of `n` states leads back to that state. */
  lemma PinStateInRange(p: int, n: int)
    requires PinOf(p, n)
    ensures StateForPinID(p).Ok? && 0 <= StateForPinID(p).value < n
  {
    if p == -1 {
      assert StateForPinID(p) == Ok(0);
    } else if p % 3 == 1 {
      assert p == 3 * (p / 3) + 1;
      IDsLeadBack(p / 3);
    } else {
      assert p == 3 * (p / 3 + 1) - 1;
      IDsLeadBack(p / 3 + 1);
    }
  }

  /** A link from state i's "From" pin to state j's "To" pin leaves i for j;
    the same two pins dragged the other way, or two pins of one kind, make
    no transition. */
  lemma {:induction false} LinkDirection(i: nat, j: nat)
    requires IntPin(3 * i + 1) && IntPin(3 * j + 1)
    ensures NewLink(3 * i + 1, 3 * j - 1) == Ok(Some(Transition(j, i, [], false)))
    ensures NewLink(3 * j - 1, 3 * i + 1) == Ok(None)
    ensures NewLink(3 * i + 1, 3 * j + 1) == Ok(None)
    ensures NewLink(3 * i - 1, 3 * j - 1) == Ok(None)
  {
    PinCounts(i);
    PinCounts(j);
    IDsLeadBack(i);
    IDsLeadBack(j);
  }

  /** State i's "From" pin counts 0 and its "To" pin 1; for state 0 the
    "To" pin is -1, whose unsigned sum wraps around. */
  lemma PinCounts(i: nat)
    requires IntPin(3 * i + 1)
    ensures PinCount(3 * i + 1) == 0 && PinCount(3 * i - 1) == 1
  {
    assert (3 * i + 3) % 3 == 0;
    if i == 0 {
      assert PinBits(-1) + 2 == UINTPTR_MOD + 1;
      assert (UINTPTR_MOD + 1) % UINTPTR_MOD == 1;
    } else {
      assert (3 * i + 1) % 3 == 1;
    }
  }

  // ---------------------------------------------------------------------
  // Consistent indices

  /** Every transition joins two existing states. */
  predicate EndpointsIn(ts: seq<Transition>, n: int)
  {
    forall i | 0 <= i < |ts| :: 0 <= ts[i].inputStateID < n && 0 <= ts[i].outputStateID < n
  }

  /** An operand index is -1 (a literal) or names an existing variable. */
  predicate IndexIn(idx: int, n: int)
  {
    idx == -1 || 0 <= idx < n
  }

  predicate ConditionIn(c: Condition, n: int)
  {
    IndexIn(c.variable1Idx, n) && IndexIn(c.variable2Idx, n)
  }

  /** Every condition of every transition names existing variables. */
  predicate VariablesIn(ts: seq<Transition>, n: int)
  {
    forall i, j | 0 <= i < |ts| && 0 <= j < |ts[i].conditions| :: ConditionIn(ts[i].conditions[j], n)
  }

  /** The elements of `s` that `drop` does not select, in order. */
  function Filter<T>(s: seq<T>, drop: T -> bool): (r: seq<T>)
    ensures |r| <= |s|
  {
    if s == [] then []
    else (if drop(s[0]) then [] else [s[0]]) + Filter(s[1..], drop)
  }

  /** The filtered sequence holds exactly the elements `drop` does not
      select. */
  lemma {:induction false} FilterMembers<T>(s: seq<T>, drop: T -> bool)
    ensures forall x | x in Filter(s, drop) :: x in s && !drop(x)
    ensures forall x | x in s && !drop(x) :: x in Filter(s, drop)
  {
    if s != [] {
      FilterMembers(s[1..], drop);
      assert s == [s[0]] + s[1..];
    }
  }

  lemma FilterFrom<T>(s: seq<T>, j: nat, drop: T -> bool)
    requires j < |s|
    ensures Filter(s[j..], drop) == (if drop(s[j]) then [] else [s[j]]) + Filter(s[j + 1..], drop)
  {
    assert s[j..][1..] == s[j + 1..];
  }

  lemma EraseMiddle<T>(a: seq<T>, x: T, b: seq<T>)
    ensures Erase(a + [x] + b, |a|) == a + b
    ensures a + [x] + b == a + ([x] + b)
  {
    assert (a + [x] + b)[..|a|] == a;
    assert (a + [x] + b)[|a| + 1..] == b;
  }

  /** One step of the loop below: deciding element `j` extends the
      filtered suffix by it. */
  lemma EraseWhereStep<T>(s: seq<T>, j: nat, drop: T -> bool, r: seq<T>)
    requires j < |s| && r == s[..j + 1] + Filter(s[j + 1..], drop)
    ensures j < |r| && r[j] == s[j]
    ensures drop(s[j]) ==> Erase(r, j) == s[..j] + Filter(s[j..], drop)
    ensures !drop(s[j]) ==> r == s[..j] + Filter(s[j..], drop)
  {
    var a, x, rest := s[..j], s[j], Filter(s[j + 1..], drop);
    SplitAt(s, j, rest, r);
    FilterFrom(s, j, drop);
    EraseMiddle(a, x, rest);
  }

  lemma SplitAt<T>(s: seq<T>, j: nat, rest: seq<T>, r: seq<T>)
    requires j < |s| && r == s[..j + 1] + rest
    ensures r == s[..j] + [s[j]] + rest && j < |r| && r[j] == s[j]
  {
    assert s[..j + 1] == s[..j] + [s[j]];
  }

  /** The loop that walks `s` from the back and erases every element
      `drop` selects. */
  method EraseWhere<T>(s: seq<T>, drop: T -> bool) returns (r: seq<T>)
    ensures r == Filter(s, drop)
  {
    r := s;
    var j := |s|;
    assert s[..j] + Filter(s[j..], drop) == s + [];
    while j > 0
      invariant 0 <= j <= |s|
      invariant r == s[..j] + Filter(s[j..], drop)
    {
      j := j - 1;
      EraseWhereStep(s, j, drop, r);
      if drop(r[j]) {
        r := Erase(r, j);
      }
    }
    assert s[..0] == [] && s[0..] == s;
  }

  // ---------------------------------------------------------------------
  // Removing a state

  predicate Touches(t: Transition, k: int)
  {
    t.inputStateID == k || t.outputStateID == k
  }

  function Touching(k: int): Transition -> bool
  {
    t => Touches(t, k)
  }

  /** The index an element keeps once element `k` is erased. */
  function Shift(x: int, k: int): int
  {
    if x > k then x - 1 else x
  }

  /** After erasing element `k`, a shifted index other than `k` still
      reaches the same element. */
  lemma ShiftKeepsElement<T>(s: seq<T>, k: nat, x: int)
    requires k < |s| && 0 <= x < |s| && x != k
    ensures 0 <= Shift(x, k) < |s| - 1 && Erase(s, k)[Shift(x, k)] == s[x]
  {
  }

  function ShiftEndpoints(t: Transition, k: int): Transition
  {
    t.(inputStateID := Shift(t.inputStateID, k), outputStateID := Shift(t.outputStateID, k))
  }

  function ShiftAllEndpoints(ts: seq<Transition>, k: int): (r: seq<Transition>)
    ensures |r| == |ts|
  {
    seq(|ts|, i requires 0 <= i < |ts| => ShiftEndpoints(ts[i], k))
  }

  /** The transitions once state `k` is removed: those touching it are
      gone, and the endpoints after it move down by one. */
  function WithoutState(ts: seq<Transition>, k: int): (r: seq<Transition>)
    ensures forall i | 0 <= i < |r| :: exists t | t in ts && !Touches(t, k) :: r[i] == ShiftEndpoints(t, k)
  {
    var kept := Filter(ts, Touching(k));
    FilterMembers(ts, Touching(k));
    var r := ShiftAllEndpoints(kept, k);
    assert forall i | 0 <= i < |r| :: kept[i] in kept && r[i] == ShiftEndpoints(kept[i], k);
    r
  }

  /** Removing a state keeps every endpoint in range, and each remaining
      endpoint names the same state as before. */
  lemma WithoutStateKeepsEndpoints(states: seq<State>, ts: seq<Transition>, k: nat)
    requires EndpointsIn(ts, |states|) && k < |states|
    ensures EndpointsIn(WithoutState(ts, k), |states| - 1)
    ensures forall i | 0 <= i < |WithoutState(ts, k)| ::
      exists t | t in ts && !Touches(t, k) ::
        && Erase(states, k)[WithoutState(ts, k)[i].inputStateID] == states[t.inputStateID]
        && Erase(states, k)[WithoutState(ts, k)[i].outputStateID] == states[t.outputStateID]
  {
    var r := WithoutState(ts, k);
    forall i | 0 <= i < |r|
      ensures 0 <= r[i].inputStateID < |states| - 1 && 0 <= r[i].outputStateID < |states| - 1
      ensures exists t | t in ts && !Touches(t, k) ::
        && Erase(states, k)[r[i].inputStateID] == states[t.inputStateID]
        && Erase(states, k)[r[i].outputStateID] == states[t.outputStateID]
    {
      var t :| t in ts && !Touches(t, k) && r[i] == ShiftEndpoints(t, k);
      var m :| 0 <= m < |ts| && ts[m] == t;
      ShiftKeepsElement(states, k, t.inputStateID);
      ShiftKeepsElement(states, k, t.outputStateID);
    }
  }

  /** Removing a state keeps the conditions of the transitions that
      remain. */
  lemma WithoutStateKeepsVariables(ts: seq<Transition>, k: int, n: int)
    requires VariablesIn(ts, n)
    ensures VariablesIn(WithoutState(ts, k), n)
  {
    var r := WithoutState(ts, k);
    forall i, j | 0 <= i < |r| && 0 <= j < |r[i].conditions|
      ensures ConditionIn(r[i].conditions[j], n)
    {
      var t :| t in ts && !Touches(t, k) && r[i] == ShiftEndpoints(t, k);
      var m :| 0 <= m < |ts| && ts[m] == t;
      assert r[i].conditions[j] == ts[m].conditions[j];
    }
  }

  /** The loop that moves every endpoint after `k` down by one, walking
      from the back. */
  method ShiftEndpointsLoop(ts: seq<Transition>, k: int) returns (r: seq<Transition>)
    ensures r == ShiftAllEndpoints(ts, k)
  {
    r := ts;
    var i := |ts|;
    while i > 0
      invariant 0 <= i <= |ts| && |r| == |ts|
      invariant forall m | 0 <= m < |ts| :: r[m] == if m < i then ts[m] else ShiftEndpoints(ts[m], k)
    {
      i := i - 1;
      var t := r[i];
      if t.outputStateID > k {
        t := t.(outputStateID := t.outputStateID - 1);
      }
      if t.inputStateID > k {
        t := t.(inputStateID := t.inputStateID - 1);
      }
      r := r[i := t];
    }
  }

  // ---------------------------------------------------------------------
  // Removing a variable

  predicate Uses(c: Condition, v: int)
  {
    c.variable1Idx == v || c.variable2Idx == v
  }

  function Using(v: int): Condition -> bool
  {
    c => Uses(c, v)
  }

  function ShiftOperands(c: Condition, v: int): Condition
  {
    c.(variable1Idx := Shift(c.variable1Idx, v), variable2Idx := Shift(c.variable2Idx, v))
  }

  function ShiftAllOperands(cs: seq<Condition>, v: int): (r: seq<Condition>)
    ensures |r| == |cs|
  {
    seq(|cs|, i requires 0 <= i < |cs| => ShiftOperands(cs[i], v))
  }

  /** A transition once variable `v` is removed: conditions that use it
      are gone, and the indices after it move down by one. */
  function WithoutVariable(t: Transition, v: int): (r: Transition)
    ensures r.inputStateID == t.inputStateID && r.outputStateID == t.outputStateID && r.blend == t.blend
    ensures forall i | 0 <= i < |r.conditions| :: exists c | c in t.conditions && !Uses(c, v) :: r.conditions[i] == ShiftOperands(c, v)
  {
    var kept := Filter(t.conditions, Using(v));
    FilterMembers(t.conditions, Using(v));
    var cs := ShiftAllOperands(kept, v);
    assert forall i | 0 <= i < |cs| :: kept[i] in kept && cs[i] == ShiftOperands(kept[i], v);
    t.(conditions := cs)
  }

  function WithoutVariableAll(ts: seq<Transition>, v: int): (r: seq<Transition>)
    ensures |r| == |ts|
  {
    seq(|ts|, i requires 0 <= i < |ts| => WithoutVariable(ts[i], v))
  }

  /** Operand `c` reads what operand `d` read before variable `v` was
      erased: the same literal, or the same variable. */
  predicate SameOperand(names: seq<string>, v: nat, dIdx: int, dLit: int, cIdx: int, cLit: int)
  {
    && (dIdx == -1 ==> cIdx == -1 && cLit == dLit)
    && (dIdx != -1 ==> v < |names| && 0 <= dIdx < |names| && 0 <= cIdx < |names| - 1 && Erase(names, v)[cIdx] == names[dIdx])
  }

  predicate SameOperands(names: seq<string>, v: nat, d: Condition, c: Condition)
  {
    && SameOperand(names, v, d.variable1Idx, d.variable1, c.variable1Idx, c.variable1)
    && SameOperand(names, v, d.variable2Idx, d.variable2, c.variable2Idx, c.variable2)
    && c.operator == d.operator
  }

  lemma ShiftOperandsKeepsVariables(names: seq<string>, v: nat, d: Condition)
    requires v < |names| && ConditionIn(d, |names|) && !Uses(d, v)
    ensures ConditionIn(ShiftOperands(d, v), |names| - 1)
    ensures SameOperands(names, v, d, ShiftOperands(d, v))
  {
    if d.variable1Idx != -1 {
      ShiftKeepsElement(names, v, d.variable1Idx);
    }
    if d.variable2Idx != -1 {
      ShiftKeepsElement(names, v, d.variable2Idx);
    }
  }

  /** Removing a variable keeps every condition index in range, leaves
      literals as they are, and each remaining index names the same
      variable as before. The endpoints do not change. */
  lemma WithoutVariableKeepsIndices(names: seq<string>, ts: seq<Transition>, v: nat)
    requires VariablesIn(ts, |names|) && v < |names|
    ensures VariablesIn(WithoutVariableAll(ts, v), |names| - 1)
    ensures forall i | 0 <= i < |ts| ::
      WithoutVariableAll(ts, v)[i].inputStateID == ts[i].inputStateID && WithoutVariableAll(ts, v)[i].outputStateID == ts[i].outputStateID
    ensures forall i, j | 0 <= i < |ts| && 0 <= j < |WithoutVariableAll(ts, v)[i].conditions| ::
      exists d | d in ts[i].conditions && !Uses(d, v) :: SameOperands(names, v, d, WithoutVariableAll(ts, v)[i].conditions[j])
  {
    var r := WithoutVariableAll(ts, v);
    forall i, j | 0 <= i < |ts| && 0 <= j < |r[i].conditions|
      ensures ConditionIn(r[i].conditions[j], |names| - 1)
      ensures exists d | d in ts[i].conditions && !Uses(d, v) :: SameOperands(names, v, d, r[i].conditions[j])
    {
      assert r[i] == WithoutVariable(ts[i], v);
      var c := r[i].conditions[j];
      var d :| d in ts[i].conditions && !Uses(d, v) && c == ShiftOperands(d, v);
      var m :| 0 <= m < |ts[i].conditions| && ts[i].conditions[m] == d;
      assert ConditionIn(ts[i].conditions[m], |names|);
      ShiftOperandsKeepsVariables(names, v, d);
    }
  }

  /** The loop that moves every operand index after `v` down by one. */
  method ShiftOperandsLoop(cs: seq<Condition>, v: int) returns (r: seq<Condition>)
    ensures r == ShiftAllOperands(cs, v)
  {
    r := cs;
    for i := 0 to |cs|
      invariant |r| == |cs|
      invariant forall m | 0 <= m < |cs| :: r[m] == if m < i then ShiftOperands(cs[m], v) else cs[m]
    {
      var c := r[i];
      if c.variable1Idx > v {
        c := c.(variable1Idx := c.variable1Idx - 1);
      }
      if c.variable2Idx > v {
        c := c.(variable2Idx := c.variable2Idx - 1);
      }
      r := r[i := c];
    }
  }

  /** Both loops for one transition. */
  method RemoveVariableFrom(t: Transition, v: int) returns (r: Transition)
    ensures r == WithoutVariable(t, v)
  {
    var kept := EraseWhere(t.conditions, Using(v));
    var shifted := ShiftOperandsLoop(kept, v);
    r := t.(conditions := shifted);
  }

  // ---------------------------------------------------------------------
  // Items the editor adds

  /** A new condition compares literal 0 with literal 0. */
  const DEFAULT_CONDITION := Condition(-1, 0, "==", -1, 0)

  /** A new transition leaves state 1 for state 0, unconditionally. */
  const DEFAULT_TRANSITION := Transition(0, 1, [], false)

  const DEFAULT_VARIABLE_NAME := "variable"

  // ---------------------------------------------------------------------
  // Loading: the editor appends the transitions it reads

  /** The lists after the editor reads `file` over `before`, as written:
      states and variables are replaced, transitions are appended. */
  function EditorLoaded(before: AnimatorFile, file: AnimatorFile): (r: AnimatorFile)
    ensures r.states == file.states && r.variableNames == file.variableNames && r.variableValues == file.variableValues
    ensures |r.transitions| == |before.transitions| + |file.transitions|
    ensures r.transitions[|before.transitions|..] == file.transitions
  {
    AnimatorFile(file.states, before.transitions + file.transitions, file.variableNames, file.variableValues)
  }

  /** Opening the same file twice doubles its transitions. */
  lemma ReloadDuplicatesTransitions(before: AnimatorFile, file: AnimatorFile)
    requires before.transitions == [] && |file.transitions| > 0
    ensures EditorLoaded(before, file).transitions == file.transitions
    ensures EditorLoaded(EditorLoaded(before, file), file).transitions == file.transitions + file.transitions
    ensures EditorLoaded(EditorLoaded(before, file), file) != EditorLoaded(before, file)
  {
    assert [] + file.transitions == file.transitions;
    assert |EditorLoaded(EditorLoaded(before, file), file).transitions| == 2 * |file.transitions|;
  }

  /** What loading evidently means, as the component's loader does it:
      the lists become those of the file. */
  function EditorLoadedCorrected(before: AnimatorFile, file: AnimatorFile): (r: AnimatorFile)
    ensures r == file
  {
    AnimatorFile(file.states, file.transitions, file.variableNames, file.variableValues)
  }

  /** The corrected load does not depend on what was open before, so
      loading again changes nothing. */
  lemma CorrectedReloadIsIdempotent(a: AnimatorFile, b: AnimatorFile, file: AnimatorFile)
    ensures EditorLoadedCorrected(a, file) == EditorLoadedCorrected(b, file)
    ensures EditorLoadedCorrected(EditorLoadedCorrected(a, file), file) == EditorLoadedCorrected(a, file)
  {
  }

  // ---------------------------------------------------------------------
  // The editor

  class AnimatorGraph {
    var animatorFileGuid: string
    var states: seq<State>
    var transitions: seq<Transition>
    var variableNames: seq<string>
    var variableValues: seq<int>

    /** Every index the lists hold is in range, and each variable has a
      value. */
    predicate Consistent()
      reads this
    {
      && EndpointsIn(transitions, |states|)
      && VariablesIn(transitions, |variableNames|)
      && |variableNames| == |variableValues|
    }

    function FileOf(): AnimatorFile
      reads this
    {
      AnimatorFile(states, transitions, variableNames, variableValues)
    }

    constructor ()
      ensures animatorFileGuid == "" && FileOf() == AnimatorFile([], [], [], [])
      ensures Consistent()
    {
      animatorFileGuid := "";
      states := [];
      transitions := [];
      variableNames := [];
      variableValues := [];
    }

    /** Adding the animation picked in the file browser: a play-once state
      named after the file's path. */
    method AddState(guid: string, path: string)
      modifies this`states
      ensures states == old(states) + [State(guid, true, path)]
      ensures old(Consistent()) ==> Consistent()
    {
      states := states + [State(guid, true, path)];
    }

    /** The "Add" button under the transitions, shown once there are two
      states. */
    method AddTransition()
      modifies this`transitions
      ensures transitions == if |states| >= 2 then old(transitions) + [DEFAULT_TRANSITION] else old(transitions)
      ensures old(Consistent()) ==> Consistent()
    {
      if |states| >= 2 {
        transitions := transitions + [DEFAULT_TRANSITION];
      }
    }

    /** Dragging a link between two pins of the graph: the transition
      `NewLink` makes, if any, is appended. Links between pins of existing
      states keep the indices in range. */
    method CreateLink(inputPin: int, outputPin: int) returns (r: Result<()>)
      requires IntPin(inputPin) && IntPin(outputPin)
      modifies this`transitions
      ensures r.Fatal? <==> NewLink(inputPin, outputPin).Fatal?
      ensures r.Fatal? ==> transitions == old(transitions)
      ensures r.Ok? && NewLink(inputPin, outputPin).value.None? ==> transitions == old(transitions)
      ensures r.Ok? && NewLink(inputPin, outputPin).value.Some? ==>
        transitions == old(transitions) + [NewLink(inputPin, outputPin).value.value]
      ensures old(Consistent()) && PinOf(inputPin, |states|) && PinOf(outputPin, |states|) ==> Consistent()
    {
      var link :- NewLink(inputPin, outputPin);
      if link.Some? {
        if PinOf(inputPin, |states|) && PinOf(outputPin, |states|) {
          PinStateInRange(inputPin, |states|);
          PinStateInRange(outputPin, |states|);
        }
        transitions := transitions + [link.value];
      }
      r := Ok(());
    }

    /** The "Add" button under transition `i`'s conditions. */
    method AddCondition(i: nat)
      requires i < |transitions|
      modifies this`transitions
      ensures transitions == old(transitions)[i := old(transitions)[i].(conditions := old(transitions)[i].conditions + [DEFAULT_CONDITION])]
      ensures old(Consistent()) ==> Consistent()
    {
      var t := transitions[i];
      transitions := transitions[i := t.(conditions := t.conditions + [DEFAULT_CONDITION])];
      assert forall m, j | 0 <= m < |transitions| && 0 <= j < |transitions[m].conditions| ::
        transitions[m].conditions[j] == if m == i && j == |t.conditions| then DEFAULT_CONDITION else old(transitions)[m].conditions[j];
    }

    /** The "X" button of condition `j` of transition `i`. */
    method RemoveCondition(i: nat, j: nat)
      requires i < |transitions| && j < |transitions[i].conditions|
      modifies this`transitions
      ensures transitions == old(transitions)[i := old(transitions)[i].(conditions := Erase(old(transitions)[i].conditions, j))]
      ensures old(Consistent()) ==> Consistent()
    {
      var t := transitions[i];
      transitions := transitions[i := t.(conditions := Erase(t.conditions, j))];
      assert forall m, n | 0 <= m < |transitions| && 0 <= n < |transitions[m].conditions| ::
        transitions[m].conditions[n] == if m == i then (if n < j then t.conditions[n] else t.conditions[n + 1]) else old(transitions)[m].conditions[n];
    }

    /** The "Add" button under the variables. */
    method AddVariable()
      modifies this`variableNames, this`variableValues
      ensures variableNames == old(variableNames) + [DEFAULT_VARIABLE_NAME]
      ensures variableValues == old(variableValues) + [0]
      ensures old(Consistent()) ==> Consistent()
    {
      variableNames := variableNames + [DEFAULT_VARIABLE_NAME];
      variableValues := variableValues + [0];
    }

    /** Deleting link `linkID` in the graph: the loop erases the transition
      at that position, if there is one. */
    method DeleteLink(linkID: int)
      modifies this`transitions
      ensures transitions == if 0 <= linkID < |old(transitions)| then Erase(old(transitions), linkID) else old(transitions)
      ensures old(Consistent()) ==> Consistent()
    {
      var i := 0;
      while i < |transitions|
        invariant 0 <= i <= |transitions| && transitions == old(transitions)
        invariant !(0 <= linkID < i)
      {
        if i == linkID {
          transitions := Erase(transitions, i);
          return;
        }
        i := i + 1;
      }
    }

    /** "Remove link" in the link's menu erases the transition at the
      link's position, unchecked. */
    method RemoveLink(linkToRemove: int)
      requires 0 <= linkToRemove < |transitions|
      modifies this`transitions
      ensures transitions == Erase(old(transitions), linkToRemove)
      ensures old(Consistent()) ==> Consistent()
    {
      transitions := Erase(transitions, linkToRemove);
    }

    /** "Remove node" in the node's menu: a pin id is fatal; otherwise the
      transitions touching the state go, the endpoints after it move down
      and the state is erased. */
    method RemoveNode(nodeID: int) returns (r: Result<()>)
      requires StateForNodeID(nodeID).Ok? ==> 0 <= StateForNodeID(nodeID).value < |states|
      modifies this`transitions, this`states
      ensures r.Fatal? <==> StateForNodeID(nodeID).Fatal?
      ensures r.Fatal? ==> transitions == old(transitions) && states == old(states)
      ensures r.Ok? ==>
        var k := StateForNodeID(nodeID).value;
        transitions == WithoutState(old(transitions), k) && states == Erase(old(states), k)
      ensures old(Consistent()) ==> Consistent()
    {
      var stateToRemove :- StateForNodeID(nodeID);
      var kept := EraseWhere(transitions, Touching(stateToRemove));
      transitions := ShiftEndpointsLoop(kept, stateToRemove);
      states := Erase(states, stateToRemove);
      if old(Consistent()) {
        WithoutStateKeepsEndpoints(old(states), old(transitions), stateToRemove);
        WithoutStateKeepsVariables(old(transitions), stateToRemove, |variableNames|);
      }
      r := Ok(());
    }

    /** The "X" button of variable `v`: the name and value go together,
      and so does every condition that reads the variable. */
    method RemoveVariable(v: nat)
      requires v < |variableNames| && v < |variableValues|
      modifies this`variableNames, this`variableValues, this`transitions
      ensures variableNames == Erase(old(variableNames), v) && variableValues == Erase(old(variableValues), v)
      ensures transitions == WithoutVariableAll(old(transitions), v)
      ensures old(Consistent()) ==> Consistent()
    {
      variableNames := Erase(variableNames, v);
      variableValues := Erase(variableValues, v);
      var ts := transitions;
      for i := 0 to |ts|
        invariant variableNames == Erase(old(variableNames), v) && variableValues == Erase(old(variableValues), v)
        invariant |transitions| == |ts|
        invariant forall m | 0 <= m < |ts| :: transitions[m] == if m < i then WithoutVariable(ts[m], v) else ts[m]
      {
        var t := RemoveVariableFrom(transitions[i], v);
        transitions := transitions[i := t];
      }
      if old(Consistent()) {
        WithoutVariableKeepsIndices(old(variableNames), ts, v);
      }
    }

    /** `loadStateMachine`, given the parsed file: fatal without a file;
      otherwise states and variables are replaced by the file's, and its
      transitions are appended to those already open. */
    method LoadStateMachine(doc: Node) returns (r: Result<()>)
      modifies this`states, this`transitions, this`variableNames, this`variableValues
      ensures animatorFileGuid == "" ==> r.Fatal? && FileOf() == old(FileOf())
      ensures animatorFileGuid != "" ==> (r.Fatal? <==> DecodeAnimatorFile(doc).Fatal?)
      ensures r.Ok? ==> FileOf() == EditorLoaded(old(FileOf()), DecodeAnimatorFile(doc).value)
    {
      if animatorFileGuid == "" {
        return Fatal("No file specified for animator (2)");
      }
      states := [];
      variableNames := [];
      variableValues := [];
      var file :- ReadAnimatorFile(doc);
      states := file.states;
      transitions := transitions + file.transitions;
      variableNames := file.variableNames;
      variableValues := file.variableValues;
      r := Ok(());
    }

    /** `serializeStateMachine`, up to the document it writes: fatal
      without a file. */
    method SerializeStateMachine() returns (r: Result<Node>)
      requires |variableNames| <= |variableValues|
      ensures animatorFileGuid == "" ==> r.Fatal?
      ensures animatorFileGuid != "" ==> r == Ok(EncodeAnimatorFile(FileOf()))
    {
      if animatorFileGuid == "" {
        return Fatal("No file specified for animator");
      }
      var ss, ts, names, values := states, transitions, variableNames, variableValues;
      var stateNodes: seq<Node> := [];
      for i := 0 to |ss|
        invariant |stateNodes| == i && forall m | 0 <= m < i :: stateNodes[m] == StateNode(ss[m])
      {
        stateNodes := stateNodes + [StateNode(ss[i])];
      }
      var transitionNodes: seq<Node> := [];
      for i := 0 to |ts|
        invariant |transitionNodes| == i && forall m | 0 <= m < i :: transitionNodes[m] == TransitionNode(ts[m])
      {
        transitionNodes := transitionNodes + [TransitionNode(ts[i])];
      }
      var variableNodes: seq<Node> := [];
      for i := 0 to |names|
        invariant |variableNodes| == i && forall m | 0 <= m < i :: variableNodes[m] == VariableNode(names[m], values[m])
      {
        variableNodes := variableNodes + [VariableNode(names[i], values[i])];
      }
      var doc := EncodeAnimatorFile(FileOf());
      assert stateNodes == Get(doc, K_STATES).items;
      assert transitionNodes == Get(doc, K_TRANSITIONS).items;
      assert variableNodes == Get(doc, K_VARIABLES).items;
      r := Ok(Mapping(map[K_STATES := Sequence(stateNodes), K_TRANSITIONS := Sequence(transitionNodes), K_VARIABLES := Sequence(variableNodes)]));
    }
  }
}
