/** The manual creation wizard: three steps (centre goal, sub-goals,
    actions), the edits made on them, the cursor over the filled sub-goals
    on the actions step, the preparation of the data handed to the create
    mutation, and the conversion of an OCR or text-analysis result into
    the wizard's data. */
module Wizard {
  import opened Common
  import opened Strings
  import Mandalarts

  datatype Step = CenterStep | SubGoalsStep | ActionsStep

  /** What the user has typed: the centre goal, eight sub-goal titles, and
      for some sub-goal indices a row of action contents. */
  datatype ManualData = ManualData(centerGoal: string, subGoals: seq<string>, actions: map<int, seq<string>>)

  /** The wizard's state: the step, the data and the index of the current
      sub-goal among the filled ones. */
  datatype Wizard = Wizard(step: Step, data: ManualData, cursor: int)

  /** The alert shown instead of moving on. */
  datatype Notice = NeedCenterGoal | NeedSubGoal | NeedSubGoalAndAction

  function Blanks(n: nat): (r: seq<string>)
    ensures |r| == n && forall k :: 0 <= k < n ==> r[k] == ""
  {
    seq(n, k => "")
  }

  /** The state the screen opens with. */
  function Initial(): Wizard
  {
    Wizard(CenterStep, ManualData("", Blanks(8), map[]), 0)
  }

  /** Eight sub-goal slots, and every action row is a row of eight for one of them. */
  predicate WellFormed(d: ManualData)
  {
    |d.subGoals| == 8 && forall k :: k in d.actions ==> 0 <= k < 8 && |d.actions[k]| == 8
  }

  /** The indices of the sub-goals whose title is not blank, in order. */
  function FilledIndices(subGoals: seq<string>): (r: seq<int>)
    ensures |r| <= |subGoals|
  {
    if subGoals == [] then []
    else if Blank(subGoals[|subGoals| - 1]) then FilledIndices(subGoals[..|subGoals| - 1])
    else FilledIndices(subGoals[..|subGoals| - 1]) + [|subGoals| - 1]
  }

  // ----- the step machine -----

  /** "Next": the centre step needs a centre goal, the sub-goal step needs
      at least one sub-goal and starts the actions step on the first one;
      on the actions step there is no next. It moves on exactly when the
      step's requirement holds, and changes nothing else but the cursor on
      entering the actions step. */
  function NextStep(w: Wizard): (r: (Wizard, Option<Notice>))
    ensures r.0.data == w.data
    ensures w.step == CenterStep ==>
      (r.0.step == SubGoalsStep <==> Trim(w.data.centerGoal) != []) &&
      (r.1 == Some(NeedCenterGoal) <==> Trim(w.data.centerGoal) == [])
    ensures w.step == SubGoalsStep ==>
      (r.0.step == ActionsStep <==> exists i :: 0 <= i < |w.data.subGoals| && Trim(w.data.subGoals[i]) != []) &&
      (r.0.step == ActionsStep ==> r.0.cursor == 0)
    ensures r.1.None? ==> r.0.step != w.step || w.step == ActionsStep
    ensures r.1.Some? ==> r.0 == w
  {
    BlankIffTrimEmpty(w.data.centerGoal);
    SomeSubGoalFilled(w.data.subGoals);
    match w.step
    case CenterStep =>
      if Blank(w.data.centerGoal) then (w, Some(NeedCenterGoal)) else (w.(step := SubGoalsStep), None)
    case SubGoalsStep =>
      if |FilledIndices(w.data.subGoals)| == 0 then (w, Some(NeedSubGoal))
      else (w.(step := ActionsStep, cursor := 0), None)
    case ActionsStep => (w, None)
  }

  /** "Back": actions to sub-goals to centre; the centre step stays. It
      never touches the data or the cursor. */
  function PrevStep(w: Wizard): (r: Wizard)
    ensures r.data == w.data && r.cursor == w.cursor
    ensures r == w <==> w.step == CenterStep
  {
    match w.step
    case ActionsStep => w.(step := SubGoalsStep)
    case SubGoalsStep => w.(step := CenterStep)
    case CenterStep => w
  }

  /** Some sub-goal is filled exactly when some sub-goal trims to a
      non-empty title. */
  lemma SomeSubGoalFilled(subGoals: seq<string>)
    ensures |FilledIndices(subGoals)| > 0 <==> exists i :: 0 <= i < |subGoals| && Trim(subGoals[i]) != []
  {
    FilledIndicesSpec(subGoals);
    if exists i :: 0 <= i < |subGoals| && Trim(subGoals[i]) != [] {
      var i :| 0 <= i < |subGoals| && Trim(subGoals[i]) != [];
      BlankIffTrimEmpty(subGoals[i]);
    } else {
      forall i | 0 <= i < |subGoals|
        ensures Blank(subGoals[i])
      {
        BlankIffTrimEmpty(subGoals[i]);
      }
    }
  }

  /** Going back undoes a successful "next": from the centre step exactly,
      from the sub-goal step up to the cursor it reset. */
  lemma PrevUndoesNext(w: Wizard)
    requires w.step != ActionsStep && NextStep(w).1.None?
    ensures w.step == CenterStep ==> PrevStep(NextStep(w).0) == w
    ensures w.step == SubGoalsStep ==> PrevStep(NextStep(w).0) == w.(cursor := 0)
  {
  }

  /** The membership and order of the filled indices. */
  lemma {:induction false} FilledIndicesSpec(subGoals: seq<string>)
    ensures forall i :: i in FilledIndices(subGoals) <==> 0 <= i < |subGoals| && !Blank(subGoals[i])
    ensures forall a, b :: 0 <= a < b < |FilledIndices(subGoals)| ==> FilledIndices(subGoals)[a] < FilledIndices(subGoals)[b]
    ensures |FilledIndices(subGoals)| == 0 <==> forall i :: 0 <= i < |subGoals| ==> Blank(subGoals[i])
  {
    if subGoals != [] {
      var init := subGoals[..|subGoals| - 1];
      FilledIndicesSpec(init);
      assert forall i :: 0 <= i < |init| ==> init[i] == subGoals[i];
      var prev := FilledIndices(init);
      assert forall a :: 0 <= a < |prev| ==> prev[a] in prev;
    }
  }

  // ----- edits -----

  /** Typing into sub-goal slot `index`: it replaces exactly that slot, and
      writing back what the slot holds changes nothing. */
  function SubGoalChange(d: ManualData, index: int, value: string): (r: ManualData)
    requires 0 <= index < |d.subGoals|
    ensures |r.subGoals| == |d.subGoals| && r.subGoals[index] == value
    ensures forall k :: 0 <= k < |d.subGoals| && k != index ==> r.subGoals[k] == d.subGoals[k]
    ensures r.centerGoal == d.centerGoal && r.actions == d.actions
    ensures value == d.subGoals[index] ==> r == d
    ensures WellFormed(d) ==> WellFormed(r)
  {
    d.(subGoals := d.subGoals[index := value])
  }

  /** The action row of sub-goal `index`, or eight empty contents when it has none yet. */
  function Row(d: ManualData, index: int): seq<string>
  {
    if index in d.actions then d.actions[index] else Blanks(8)
  }

  /** Typing into action slot `actionIndex` of sub-goal `subGoalIndex`: it
      replaces exactly one slot of one row, creating the row as eight empty
      contents first if it is missing; every other row and slot is kept. */
  function ActionChange(d: ManualData, subGoalIndex: int, actionIndex: int, value: string): (r: ManualData)
    requires 0 <= actionIndex < |Row(d, subGoalIndex)|
    ensures r.centerGoal == d.centerGoal && r.subGoals == d.subGoals
    ensures r.actions.Keys == d.actions.Keys + {subGoalIndex}
    ensures forall k :: k in d.actions && k != subGoalIndex ==> r.actions[k] == d.actions[k]
    ensures |r.actions[subGoalIndex]| == |Row(d, subGoalIndex)| && r.actions[subGoalIndex][actionIndex] == value
    ensures forall j :: 0 <= j < |Row(d, subGoalIndex)| && j != actionIndex ==>
      r.actions[subGoalIndex][j] == Row(d, subGoalIndex)[j]
    ensures subGoalIndex !in d.actions ==> forall j :: 0 <= j < 8 && j != actionIndex ==> r.actions[subGoalIndex][j] == ""
    ensures subGoalIndex in d.actions && value == d.actions[subGoalIndex][actionIndex] ==> r == d
    ensures WellFormed(d) && 0 <= subGoalIndex < 8 ==> WellFormed(r)
  {
    var row := Row(d, subGoalIndex);
    assert subGoalIndex in d.actions && value == row[actionIndex] ==>
      row[actionIndex := value] == row && d.actions[subGoalIndex := row] == d.actions;
    d.(actions := d.actions[subGoalIndex := row[actionIndex := value]])
  }

  // ----- the actions step -----

  /** The chevrons: one back, floored at the first filled sub-goal. */
  function CursorBack(cursor: int): (r: int)
    ensures r >= 0 && r >= cursor - 1
    ensures r == 0 || r == cursor - 1
  {
    if cursor - 1 > 0 then cursor - 1 else 0
  }

  /** One forward, capped at the last filled sub-goal. */
  function CursorForward(cursor: int, filled: int): (r: int)
    ensures r <= filled - 1 && r <= cursor + 1
    ensures r == filled - 1 || r == cursor + 1
  {
    if filled - 1 < cursor + 1 then filled - 1 else cursor + 1
  }

  /** The user's actions on the wizard. Each is offered only where the
      screen shows it: sub-goal fields on the sub-goal step, action fields
      and chevrons on the actions step. */
  datatype Event =
    | Next
    | Back
    | EditCenterGoal(value: string)
    | EditSubGoal(index: int, value: string)
    | EditAction(actionIndex: int, value: string)
    | PrevSubGoal
    | NextSubGoal

  /** The index of the sub-goal the actions step is showing. */
  function Current(w: Wizard): Option<int>
  {
    var filled := FilledIndices(w.data.subGoals);
    if 0 <= w.cursor < |filled| then Some(filled[w.cursor]) else None
  }

  /** One user action on the wizard. Every action keeps the wizard sound:
      the cursor never leaves the filled sub-goals, and the actions step
      always has a current sub-goal. */
  function Handle(w: Wizard, e: Event): (r: Wizard)
    ensures Sound(w) ==> Sound(r)
    ensures Sound(w) && r.step == ActionsStep ==> Current(r).Some?
  {
    FilledIndicesSpec(w.data.subGoals);
    match e
    case Next => NextStep(w).0
    case Back => PrevStep(w)
    case EditCenterGoal(v) =>
      if w.step == CenterStep then w.(data := w.data.(centerGoal := v)) else w
    case EditSubGoal(i, v) =>
      if w.step == SubGoalsStep && 0 <= i < |w.data.subGoals| then w.(data := SubGoalChange(w.data, i, v)) else w
    case EditAction(j, v) =>
      var cur := Current(w);
      if w.step == ActionsStep && cur.Some? && 0 <= j < |Row(w.data, cur.value)|
      then
        assert cur.value in FilledIndices(w.data.subGoals);
        w.(data := ActionChange(w.data, cur.value, j, v))
      else w
    case PrevSubGoal =>
      if w.step == ActionsStep then w.(cursor := CursorBack(w.cursor)) else w
    case NextSubGoal =>
      if w.step == ActionsStep then w.(cursor := CursorForward(w.cursor, |FilledIndices(w.data.subGoals)|)) else w
  }

  /** The data is well formed, and on the actions step the cursor points
      at one of the filled sub-goals. */
  predicate Sound(w: Wizard)
  {
    WellFormed(w.data) && (w.step == ActionsStep ==> 0 <= w.cursor < |FilledIndices(w.data.subGoals)|)
  }

  lemma InitialSound()
    ensures Sound(Initial()) && Initial().step == CenterStep
  {
  }

  // ----- save -----

  /** The actions kept for a row: trimmed, typed routine, empty ones dropped. */
  function ActionsData(row: seq<string>): seq<Mandalarts.ActionInput>
  {
    Filter(seq(|row|, k requires 0 <= k < |row| => Mandalarts.ActionInput(Trim(row[k]), Some(Mandalarts.Routine))),
           (a: Mandalarts.ActionInput) => a.content != [])
  }

  /** The sub-goal a filled slot becomes. */
  function Entry(d: ManualData, i: int): Mandalarts.SubGoalInput
    requires 0 <= i < |d.subGoals|
  {
    Mandalarts.SubGoalInput(Trim(d.subGoals[i]), ActionsData(if i in d.actions then d.actions[i] else []))
  }

  /** The sub-goals of the first `n` slots that are kept, in order. */
  function SubGoalsData(d: ManualData, n: nat): seq<Mandalarts.SubGoalInput>
    requires n <= |d.subGoals|
  {
    if n == 0 then []
    else SubGoalsData(d, n - 1) + (if Blank(d.subGoals[n - 1]) then [] else [Entry(d, n - 1)])
  }

  /** The save button: the trimmed centre goal and the kept sub-goals to
      hand to the create mutation, or the alert when no sub-goal is left.
      It alerts exactly when every sub-goal is blank; otherwise it hands
      over one sub-goal per filled slot, in slot order: slot `i` lands at
      the number of filled slots before it, with its trimmed title and its
      kept actions. */
  function SavePrep(d: ManualData): (r: Result<(string, seq<Mandalarts.SubGoalInput>), Notice>)
    ensures r.Err? <==> forall i :: 0 <= i < |d.subGoals| ==> Blank(d.subGoals[i])
    ensures r.Err? ==> r.error == NeedSubGoalAndAction
    ensures r.Ok? ==> r.value.0 == Trim(d.centerGoal) && |r.value.1| == |FilledIndices(d.subGoals)|
    ensures r.Ok? ==> forall i :: 0 <= i < |d.subGoals| && !Blank(d.subGoals[i]) ==>
      Rank(d, i) < |r.value.1| && r.value.1[Rank(d, i)] == Entry(d, i)
  {
    KeptSubGoals(d);
    var subs := SubGoalsData(d, |d.subGoals|);
    if |subs| == 0 then Err(NeedSubGoalAndAction) else Ok((Trim(d.centerGoal), subs))
  }

  /** The number of kept sub-goals below `n`: where slot `n` lands. */
  function Rank(d: ManualData, n: nat): nat
    requires n <= |d.subGoals|
  {
    |SubGoalsData(d, n)|
  }

  lemma {:induction false} SubGoalsDataCount(d: ManualData, n: nat)
    requires n <= |d.subGoals|
    ensures |SubGoalsData(d, n)| == |FilledIndices(d.subGoals[..n])|
  {
    if n > 0 {
      SubGoalsDataCount(d, n - 1);
      var pre := d.subGoals[..n];
      assert pre[..n - 1] == d.subGoals[..n - 1] && pre[n - 1] == d.subGoals[n - 1];
    }
  }

  lemma {:induction false} SubGoalsDataAt(d: ManualData, n: nat, i: nat)
    requires i < n <= |d.subGoals| && !Blank(d.subGoals[i])
    ensures Rank(d, i) < |SubGoalsData(d, n)| && SubGoalsData(d, n)[Rank(d, i)] == Entry(d, i)
  {
    if i < n - 1 {
      SubGoalsDataAt(d, n - 1, i);
    }
  }

  lemma {:induction false} RankGrows(d: ManualData, m: nat, n: nat)
    requires m <= n <= |d.subGoals|
    ensures Rank(d, m) <= Rank(d, n)
  {
    if m < n {
      RankGrows(d, m, n - 1);
    }
  }

  /** The kept sub-goals of all slots: one per filled slot, none when every
      slot is blank, and each filled slot's entry at its rank. */
  lemma KeptSubGoals(d: ManualData)
    ensures |SubGoalsData(d, |d.subGoals|)| == |FilledIndices(d.subGoals)|
    ensures |FilledIndices(d.subGoals)| == 0 <==> forall i :: 0 <= i < |d.subGoals| ==> Blank(d.subGoals[i])
    ensures forall i :: 0 <= i < |d.subGoals| && !Blank(d.subGoals[i]) ==>
      Rank(d, i) < |SubGoalsData(d, |d.subGoals|)| && SubGoalsData(d, |d.subGoals|)[Rank(d, i)] == Entry(d, i)
  {
    SubGoalsDataCount(d, |d.subGoals|);
    assert d.subGoals[..|d.subGoals|] == d.subGoals;
    FilledIndicesSpec(d.subGoals);
    forall i | 0 <= i < |d.subGoals| && !Blank(d.subGoals[i])
      ensures Rank(d, i) < |SubGoalsData(d, |d.subGoals|)| && SubGoalsData(d, |d.subGoals|)[Rank(d, i)] == Entry(d, i)
    {
      SubGoalsDataAt(d, |d.subGoals|, i);
    }
  }

  /** Earlier filled slots land earlier. */
  lemma RanksIncrease(d: ManualData, i: nat, j: nat)
    requires i < j <= |d.subGoals| && !Blank(d.subGoals[i])
    ensures Rank(d, i) < Rank(d, j)
  {
    RankGrows(d, i + 1, j);
  }

  /** Every kept action content is non-empty, has no surrounding space and
      is typed routine; each one comes from a slot of the row. */
  lemma ActionsDataClean(row: seq<string>)
    ensures forall a :: a in ActionsData(row) ==>
      a.content != [] && a.kind == Some(Mandalarts.Routine) && !Blank(a.content) &&
      !IsSpace(a.content[0]) && !IsSpace(a.content[|a.content| - 1]) &&
      exists k :: 0 <= k < |row| && a.content == Trim(row[k])
    ensures forall k :: 0 <= k < |row| && !Blank(row[k]) ==>
      Mandalarts.ActionInput(Trim(row[k]), Some(Mandalarts.Routine)) in ActionsData(row)
  {
    var mapped := seq(|row|, k requires 0 <= k < |row| => Mandalarts.ActionInput(Trim(row[k]), Some(Mandalarts.Routine)));
    FilterMembers(mapped, (a: Mandalarts.ActionInput) => a.content != []);
    forall a | a in ActionsData(row)
      ensures !Blank(a.content) && !IsSpace(a.content[0]) && !IsSpace(a.content[|a.content| - 1])
      ensures exists k :: 0 <= k < |row| && a.content == Trim(row[k])
    {
      var k :| 0 <= k < |row| && mapped[k] == a;
      TrimIdempotent(row[k]);
      BlankIffTrimEmpty(a.content);
    }
    forall k | 0 <= k < |row| && !Blank(row[k])
      ensures mapped[k] in ActionsData(row)
    {
      BlankIffTrimEmpty(row[k]);
    }
  }

  /** Every kept sub-goal title is a non-blank trimmed title. */
  lemma SubGoalsDataClean(d: ManualData, n: nat)
    requires n <= |d.subGoals|
    ensures forall s :: s in SubGoalsData(d, n) ==> !Blank(s.title) && s.title == Trim(s.title)
    ensures forall s, a :: s in SubGoalsData(d, n) && a in s.actions ==> !Blank(a.content)
  {
    forall s | s in SubGoalsData(d, n)
      ensures !Blank(s.title) && s.title == Trim(s.title)
      ensures forall a :: a in s.actions ==> !Blank(a.content)
    {
      var i := SourceOf(d, n, s);
      BlankIffTrimEmpty(d.subGoals[i]);
      TrimIdempotent(d.subGoals[i]);
      BlankIffTrimEmpty(s.title);
      ActionsDataClean(if i in d.actions then d.actions[i] else []);
    }
  }

  /** The slot a kept sub-goal came from. */
  lemma {:induction false} SourceOf(d: ManualData, n: nat, s: Mandalarts.SubGoalInput) returns (i: nat)
    requires n <= |d.subGoals| && s in SubGoalsData(d, n)
    ensures i < n && !Blank(d.subGoals[i]) && s == Entry(d, i)
  {
    var prev := SubGoalsData(d, n - 1);
    if s in prev {
      i := SourceOf(d, n - 1, s);
    } else {
      i := n - 1;
    }
  }

  /** Creating from what save prepares leaves no gaps: the sub-goal rows
      take positions 1 to the number of kept sub-goals, and each batch of
      actions takes positions 1 to the number of its actions. */
  lemma SaveThenCreateHasNoGaps(d: ManualData, mid: nat, from: nat)
    requires SavePrep(d).Ok?
    ensures var subs := SavePrep(d).value.1;
      (forall k :: 1 <= k <= |subs| ==> k in Mandalarts.Positions(Mandalarts.SubGoalRows(mid, subs, from))) &&
      (forall s, sgId: nat, k :: s in subs && 1 <= k <= |s.actions| ==>
        k in Mandalarts.ActionPositions(Mandalarts.ActionBatch(sgId, s.actions)))
  {
    var subs := SavePrep(d).value.1;
    SubGoalsDataClean(d, |d.subGoals|);
    Mandalarts.SubGoalRowsSlots(mid, subs, from);
    forall k | 1 <= k <= |subs|
      ensures k in Mandalarts.Positions(Mandalarts.SubGoalRows(mid, subs, from))
    {
      assert subs[k - 1] in subs;
    }
    forall s, sgId: nat, k | s in subs && 1 <= k <= |s.actions|
      ensures k in Mandalarts.ActionPositions(Mandalarts.ActionBatch(sgId, s.actions))
    {
      Mandalarts.ActionBatchSlots(sgId, s.actions);
      assert s.actions[k - 1] in s.actions;
    }
  }

  // ----- OCR -----

  datatype OcrSubGoal = OcrSubGoal(title: Option<string>, actions: Option<seq<string>>)

  /** The analysis result: every field may be missing. */
  datatype OcrResult = OcrResult(centerGoal: Option<string>, subGoals: Option<seq<OcrSubGoal>>)

  /** JavaScript truthiness of an optional string. */
  predicate Truthy(s: Option<string>)
  {
    s.Some? && s.value != ""
  }

  /** The OCR entry at `index` is copied: among the first eight, with a title. */
  predicate Copied(res: OcrResult, index: int)
  {
    res.subGoals.Some? && 0 <= index < |res.subGoals.value| && index < 8 && Truthy(res.subGoals.value[index].title)
  }

  /** The actions listed by a copied OCR entry, or none. */
  function OcrActions(res: OcrResult, index: int): seq<string>
  {
    if Copied(res, index) && res.subGoals.value[index].actions.Some? then res.subGoals.value[index].actions.value else []
  }

  /** Converts an analysis result into the wizard's data: eight sub-goal
      slots filled from the first eight titled entries, and for each of
      them that lists actions a row of eight holding its first eight
      actions at their own positions. */
  method ConvertOcr(res: OcrResult) returns (d: ManualData)
    ensures WellFormed(d)
    ensures d.centerGoal == if res.centerGoal.Some? then res.centerGoal.value else ""
    ensures forall i :: 0 <= i < 8 ==>
      d.subGoals[i] == if Copied(res, i) then res.subGoals.value[i].title.value else ""
    ensures forall k :: k in d.actions <==> Copied(res, k) && res.subGoals.value[k].actions.Some?
    ensures forall k, j :: k in d.actions && 0 <= j < 8 ==>
      d.actions[k][j] == if j < |OcrActions(res, k)| then OcrActions(res, k)[j] else ""
  {
    var subGoals := new string[8](_ => "");
    var actions: map<int, seq<string>> := map[];
    if res.subGoals.Some? {
      var sgs := res.subGoals.value;
      var i := 0;
      while i < |sgs|
        invariant 0 <= i <= |sgs|
        invariant forall k :: 0 <= k < 8 ==> subGoals[k] == if k < i && Copied(res, k) then sgs[k].title.value else ""
        invariant forall k :: k in actions <==> k < i && Copied(res, k) && sgs[k].actions.Some?
        invariant forall k :: k in actions ==> |actions[k]| == 8
        invariant forall k, j :: k in actions && 0 <= j < 8 ==>
          actions[k][j] == if j < |OcrActions(res, k)| then OcrActions(res, k)[j] else ""
      {
        var sg := sgs[i];
        if i < 8 && sg.title.Some? && sg.title.value != "" {
          subGoals[i] := sg.title.value;
          if sg.actions.Some? {
            var row := ActionRowOf(sg.actions.value);
            actions := actions[i := row];
          }
        }
        i := i + 1;
      }
    }
    d := ManualData(if res.centerGoal.Some? then res.centerGoal.value else "", subGoals[..], actions);
  }

  /** The inner loop: a fresh row of eight empty slots, with each of the
      first eight actions that is non-empty written at its own index. */
  method ActionRowOf(acts: seq<string>) returns (row: seq<string>)
    ensures |row| == 8
    ensures forall j :: 0 <= j < 8 ==> row[j] == if j < |acts| then acts[j] else ""
  {
    var cells := new string[8](_ => "");
    var j := 0;
    while j < |acts|
      invariant 0 <= j <= |acts|
      invariant forall k :: 0 <= k < 8 ==> cells[k] == if k < j && k < |acts| then acts[k] else ""
    {
      if j < 8 && acts[j] != "" {
        cells[j] := acts[j];
      }
      j := j + 1;
    }
    row := cells[..];
  }

  /** Converted data lets the wizard start sound on the centre step, with
      every copied title filled. */
  lemma OcrStartsSound(d: ManualData, res: OcrResult)
    requires WellFormed(d)
    requires forall i :: 0 <= i < 8 ==>
      d.subGoals[i] == if Copied(res, i) then res.subGoals.value[i].title.value else ""
    ensures Sound(Wizard(CenterStep, d, 0))
    ensures forall i :: 0 <= i < 8 && Copied(res, i) ==> d.subGoals[i] != ""
    ensures forall i :: 0 <= i < 8 && !Copied(res, i) ==> Blank(d.subGoals[i])
  {
  }
}
