/** The mandalart mutations: creating a mandalart together with its
    sub-goals and actions, activating one, updating one and deleting one,
    over in-memory copies of the `mandalarts`, `sub_goals` and `actions`
    tables. */
module Mandalarts {
  import opened Common
  import opened Strings

  datatype ActionType = Routine | Mission | Reference

  datatype InputMethod = Manual | Image

  datatype MandalartRow = MandalartRow(id: nat, userId: nat, title: string, centerGoal: string,
                                       inputMethod: InputMethod, isActive: bool)

  /** A `sub_goals` row; `position` is 1-based. */
  datatype SubGoalRow = SubGoalRow(id: nat, mandalartId: nat, title: string, position: nat)

  /** An `actions` row as the create mutation writes it; the id the backend
      generates for it is not part of the model. */
  datatype ActionRow = ActionRow(subGoalId: nat, content: string, title: string, position: nat,
                                 kind: ActionType)

  /** `CreateMandalartInput`: an action's type may be left out. */
  datatype ActionInput = ActionInput(content: string, kind: Option<ActionType>)

  datatype SubGoalInput = SubGoalInput(title: string, actions: seq<ActionInput>)

  /** The insert the backend rejects during a create, if any: the mandalart
      row, the sub-goal of input index `index`, or that sub-goal's batch of
      actions. */
  datatype FailPoint = MandalartInsert | SubGoalInsert(index: nat) | ActionsInsert(index: nat)

  datatype Failure = NotAuthenticated | InsertFailed | NotFound | WriteFailed

  /** `Partial<Mandalart>` restricted to the columns a client may set. */
  datatype Patch = Patch(title: Option<string>, centerGoal: Option<string>,
                         inputMethod: Option<InputMethod>, isActive: Option<bool>)

  /** The three tables, and the next id the backend will hand out. */
  datatype Tabs = Tabs(mandalarts: seq<MandalartRow>, subGoals: seq<SubGoalRow>,
                       actions: seq<ActionRow>, nextId: nat)

  /** Every id in the tables, and every reference between them, lies below
      the next id to be handed out. */
  predicate Valid(t: Tabs)
  {
    (forall m :: m in t.mandalarts ==> m.id < t.nextId) &&
    (forall g :: g in t.subGoals ==> g.id < t.nextId && g.mandalartId < t.nextId) &&
    (forall a :: a in t.actions ==> a.subGoalId < t.nextId)
  }

  // ----- create -----

  /** The action rows `map` and `filter` build for a sub-goal: blank
      contents are skipped, the position is the input index plus one, the
      title repeats the content and a missing type becomes a routine. */
  function ActionBatch(sgId: nat, acts: seq<ActionInput>): (batch: seq<ActionRow>)
    ensures |batch| <= |acts|
  {
    if acts == [] then []
    else
      var a := acts[|acts| - 1];
      ActionBatch(sgId, acts[..|acts| - 1]) +
        (if Blank(a.content) then [] else [ActionRow(sgId, a.content, a.content, |acts|, a.kind.GetOr(Routine))])
  }

  /** One pass of the loop body for the sub-goal of input index `i`: the
      tables afterwards and whether the loop goes on. */
  function SubGoalStep(t: Tabs, mid: nat, i: nat, sg: SubGoalInput, fail: Option<FailPoint>): (Tabs, bool)
  {
    if Blank(sg.title) then (t, true)
    else if fail == Some(SubGoalInsert(i)) then (t, false)
    else
      var t1 := t.(subGoals := t.subGoals + [SubGoalRow(t.nextId, mid, sg.title, i + 1)], nextId := t.nextId + 1);
      var batch := ActionBatch(t.nextId, sg.actions);
      if batch == [] then (t1, true)
      else if fail == Some(ActionsInsert(i)) then (t1, false)
      else (t1.(actions := t1.actions + batch), true)
  }

  /** The first `n` passes of the loop; once a pass fails the loop has stopped. */
  function Fill(t: Tabs, mid: nat, subs: seq<SubGoalInput>, n: nat, fail: Option<FailPoint>): (Tabs, bool)
    requires n <= |subs|
  {
    if n == 0 then (t, true)
    else
      var prev := Fill(t, mid, subs, n - 1, fail);
      if prev.1 then SubGoalStep(prev.0, mid, n - 1, subs[n - 1], fail) else prev
  }

  /** What `useCreateMandalart` returns and the tables it leaves. */
  function CreateEffect(t: Tabs, user: Option<nat>, centerGoal: string, subs: seq<SubGoalInput>,
                        fail: Option<FailPoint>): (Result<MandalartRow, Failure>, Tabs)
  {
    if user.None? then (Err(NotAuthenticated), t)
    else if fail == Some(MandalartInsert) then (Err(InsertFailed), t)
    else
      var m := MandalartRow(t.nextId, user.value, centerGoal, centerGoal, Manual, true);
      var run := Fill(t.(mandalarts := t.mandalarts + [m], nextId := t.nextId + 1), m.id, subs, |subs|, fail);
      (if run.1 then Ok(m) else Err(InsertFailed), run.0)
  }

  // ----- activate, update, delete -----

  /** The bulk `update({ is_active: false }).eq('user_id', user)`. */
  function Deactivated(ms: seq<MandalartRow>, user: nat): (r: seq<MandalartRow>)
  {
    seq(|ms|, k requires 0 <= k < |ms| => if ms[k].userId == user then ms[k].(isActive := false) else ms[k])
  }

  /** The first row with the given id, as `.single()` returns it. */
  function Find(ms: seq<MandalartRow>, id: nat): (r: Option<MandalartRow>)
  {
    if ms == [] then None
    else if ms[0].id == id then Some(ms[0])
    else Find(ms[1..], id)
  }

  /** The row `m` with the supplied columns of `p` written over it. */
  function Apply(m: MandalartRow, p: Patch): MandalartRow
  {
    m.(title := p.title.GetOr(m.title), centerGoal := p.centerGoal.GetOr(m.centerGoal),
       inputMethod := p.inputMethod.GetOr(m.inputMethod), isActive := p.isActive.GetOr(m.isActive))
  }

  /** `update(p).eq('id', id)`. */
  function Patched(ms: seq<MandalartRow>, id: nat, p: Patch): (r: seq<MandalartRow>)
  {
    seq(|ms|, k requires 0 <= k < |ms| => if ms[k].id == id then Apply(ms[k], p) else ms[k])
  }

  function ActivatePatch(): Patch
  {
    Patch(None, None, None, Some(true))
  }

  /** What `useActivateMandalart` returns and the rows it leaves. The bulk
      deactivation's own error is never looked at. */
  function ActivateEffect(ms: seq<MandalartRow>, user: Option<nat>, id: nat, deactivateOk: bool,
                          activateOk: bool): (Result<MandalartRow, Failure>, seq<MandalartRow>)
  {
    if user.None? then (Err(NotAuthenticated), ms)
    else
      var off := if deactivateOk then Deactivated(ms, user.value) else ms;
      if !activateOk then (Err(WriteFailed), off)
      else if Find(off, id).None? then (Err(NotFound), off)
      else
        (Ok(Apply(Find(off, id).value, ActivatePatch())), Patched(off, id, ActivatePatch()))
  }

  /** What `useUpdateMandalart` returns and the rows it leaves. */
  function UpdateEffect(ms: seq<MandalartRow>, id: nat, p: Patch, writeOk: bool)
    : (Result<MandalartRow, Failure>, seq<MandalartRow>)
  {
    if !writeOk then (Err(WriteFailed), ms)
    else if Find(ms, id).None? then (Err(NotFound), ms)
    else
      (Ok(Apply(Find(ms, id).value, p)), Patched(ms, id, p))
  }

  /** Rows `delete().eq('id', id)` leaves in place. */
  function OtherMandalart(id: nat): MandalartRow -> bool
  {
    (m: MandalartRow) => m.id != id
  }

  /** Sub-goal rows the cascade from mandalart `mid` leaves in place. */
  function OtherSubGoal(mid: nat): SubGoalRow -> bool
  {
    (g: SubGoalRow) => g.mandalartId != mid
  }

  /** Action rows the cascade from the sub-goals `gone` leaves in place. */
  function Outside(gone: set<nat>): ActionRow -> bool
  {
    (a: ActionRow) => a.subGoalId !in gone
  }

  /** The ids of the sub-goals of mandalart `mid`. */
  function SubGoalIdsOf(gs: seq<SubGoalRow>, mid: nat): set<nat>
  {
    set g | g in gs && g.mandalartId == mid :: g.id
  }

  /** The tables after `delete().eq('id', id)`, with the backend's cascade
      removing the mandalart's sub-goals and their actions. */
  function Deleted(t: Tabs, id: nat): Tabs
  {
    t.(mandalarts := Filter(t.mandalarts, OtherMandalart(id)), subGoals := Filter(t.subGoals, OtherSubGoal(id)),
       actions := Filter(t.actions, Outside(SubGoalIdsOf(t.subGoals, id))))
  }

  function DeleteEffect(t: Tabs, id: nat, deleteOk: bool): (Result<(), Failure>, Tabs)
  {
    if deleteOk then (Ok(()), Deleted(t, id)) else (Err(WriteFailed), t)
  }

  // ----- the store -----

  class Store {
    var mandalarts: seq<MandalartRow>
    var subGoals: seq<SubGoalRow>
    var actions: seq<ActionRow>
    var nextId: nat

    function Tables(): Tabs
      reads this
    {
      Tabs(mandalarts, subGoals, actions, nextId)
    }

    constructor ()
      ensures Tables() == Tabs([], [], [], 0)
    {
      mandalarts := [];
      subGoals := [];
      actions := [];
      nextId := 0;
    }

    /** `useCreateMandalart`: insert the mandalart, then walk the sub-goals
        in input order, inserting each non-blank one and then its batch of
        non-blank actions; the first failing insert ends the walk. */
    method Create(user: Option<nat>, centerGoal: string, subs: seq<SubGoalInput>, fail: Option<FailPoint>)
      returns (r: Result<MandalartRow, Failure>)
      modifies this
      ensures (r, Tables()) == CreateEffect(old(Tables()), user, centerGoal, subs, fail)
    {
      if user.None? {
        return Err(NotAuthenticated);
      }
      if fail == Some(MandalartInsert) {
        return Err(InsertFailed);
      }
      var m := MandalartRow(nextId, user.value, centerGoal, centerGoal, Manual, true);
      mandalarts := mandalarts + [m];
      nextId := nextId + 1;
      ghost var t1 := Tables();
      assert t1 == old(Tables()).(mandalarts := old(mandalarts) + [m], nextId := old(nextId) + 1);
      var i := 0;
      while i < |subs|
        invariant 0 <= i <= |subs|
        invariant Fill(t1, m.id, subs, i, fail) == (Tables(), true)
      {
        var sg := subs[i];
        ghost var step := SubGoalStep(Tables(), m.id, i, sg, fail);
        assert Fill(t1, m.id, subs, i + 1, fail) == step;
        var blank := Blank(sg.title);
        if !blank {
          if fail == Some(SubGoalInsert(i)) {
            FillStops(t1, m.id, subs, i + 1, |subs|, fail);
            return Err(InsertFailed);
          }
          var sgId := InsertSubGoal(m.id, sg.title, i + 1);
          var batch := ActionBatch(sgId, sg.actions);
          if |batch| > 0 {
            if fail == Some(ActionsInsert(i)) {
              FillStops(t1, m.id, subs, i + 1, |subs|, fail);
              return Err(InsertFailed);
            }
            InsertActions(batch);
          }
        }
        i := i + 1;
      }
      return Ok(m);
    }

    /** Insert one `sub_goals` row under the next id. */
    method InsertSubGoal(mid: nat, title: string, position: nat) returns (id: nat)
      modifies this`subGoals, this`nextId
      ensures id == old(nextId)
      ensures Tables() == old(Tables()).(subGoals := old(subGoals) + [SubGoalRow(id, mid, title, position)],
                                         nextId := id + 1)
    {
      id := nextId;
      subGoals := subGoals + [SubGoalRow(id, mid, title, position)];
      nextId := nextId + 1;
    }

    /** Insert a batch of `actions` rows. */
    method InsertActions(batch: seq<ActionRow>)
      modifies this`actions
      ensures Tables() == old(Tables()).(actions := old(actions) + batch)
    {
      actions := actions + batch;
    }

    /** `useActivateMandalart`. */
    method Activate(user: Option<nat>, id: nat, deactivateOk: bool, activateOk: bool)
      returns (r: Result<MandalartRow, Failure>)
      modifies this`mandalarts
      ensures (r, mandalarts) == ActivateEffect(old(mandalarts), user, id, deactivateOk, activateOk)
    {
      if user.None? {
        return Err(NotAuthenticated);
      }
      if deactivateOk {
        mandalarts := Deactivated(mandalarts, user.value);
      }
      if !activateOk {
        return Err(WriteFailed);
      }
      if Find(mandalarts, id).None? {
        return Err(NotFound);
      }
      var found := Find(mandalarts, id).value;
      mandalarts := Patched(mandalarts, id, ActivatePatch());
      return Ok(Apply(found, ActivatePatch()));
    }

    /** `useUpdateMandalart`. */
    method Update(id: nat, p: Patch, writeOk: bool) returns (r: Result<MandalartRow, Failure>)
      modifies this`mandalarts
      ensures (r, mandalarts) == UpdateEffect(old(mandalarts), id, p, writeOk)
    {
      if !writeOk {
        return Err(WriteFailed);
      }
      if Find(mandalarts, id).None? {
        return Err(NotFound);
      }
      var found := Find(mandalarts, id).value;
      mandalarts := Patched(mandalarts, id, p);
      return Ok(Apply(found, p));
    }

    /** `useDeleteMandalart`. */
    method Delete(id: nat, deleteOk: bool) returns (r: Result<(), Failure>)
      modifies this
      ensures (r, Tables()) == DeleteEffect(old(Tables()), id, deleteOk)
    {
      if !deleteOk {
        return Err(WriteFailed);
      }
      var gone := SubGoalIdsOf(subGoals, id);
      mandalarts := Filter(mandalarts, OtherMandalart(id));
      subGoals := Filter(subGoals, OtherSubGoal(id));
      actions := Filter(actions, Outside(gone));
      return Ok(());
    }
  }

  // ----- properties -----

  /** Once a pass has failed, later passes change nothing. */
  lemma {:induction false} FillStops(t: Tabs, mid: nat, subs: seq<SubGoalInput>, n: nat, k: nat,
                                     fail: Option<FailPoint>)
    requires n <= k <= |subs| && !Fill(t, mid, subs, n, fail).1
    ensures Fill(t, mid, subs, k, fail) == Fill(t, mid, subs, n, fail)
  {
    if k > n {
      FillStops(t, mid, subs, n, k - 1, fail);
    }
  }

  /** The number of sub-goals whose title is not blank. */
  function Filled(subs: seq<SubGoalInput>): nat
  {
    if subs == [] then 0
    else Filled(subs[..|subs| - 1]) + (if Blank(subs[|subs| - 1].title) then 0 else 1)
  }

  /** The sub-goal rows a create inserts for `subs` when no insert fails,
      the first of them under id `from`. */
  function SubGoalRows(mid: nat, subs: seq<SubGoalInput>, from: nat): (rows: seq<SubGoalRow>)
    ensures |rows| == Filled(subs)
  {
    if subs == [] then []
    else
      var prev := SubGoalRows(mid, subs[..|subs| - 1], from);
      var sg := subs[|subs| - 1];
      if Blank(sg.title) then prev else prev + [SubGoalRow(from + |prev|, mid, sg.title, |subs|)]
  }

  /** The action rows a create inserts for `subs` when no insert fails. */
  function ActionRows(subs: seq<SubGoalInput>, from: nat): seq<ActionRow>
  {
    if subs == [] then []
    else
      var init := subs[..|subs| - 1];
      var sg := subs[|subs| - 1];
      ActionRows(init, from) + (if Blank(sg.title) then [] else ActionBatch(from + Filled(init), sg.actions))
  }

  /** The tables after a fault-free walk over `subs`. */
  function Grown(t: Tabs, mid: nat, subs: seq<SubGoalInput>): Tabs
  {
    t.(subGoals := t.subGoals + SubGoalRows(mid, subs, t.nextId),
       actions := t.actions + ActionRows(subs, t.nextId),
       nextId := t.nextId + Filled(subs))
  }

  /** The positions of a list of sub-goal rows. */
  function Positions(rows: seq<SubGoalRow>): set<nat>
  {
    set r | r in rows :: r.position
  }

  /** The positions of a batch of action rows. */
  function ActionPositions(batch: seq<ActionRow>): set<nat>
  {
    set a | a in batch :: a.position
  }

  /** A fault that strikes none of the inserts of the first `n` passes. */
  predicate Spares(fail: Option<FailPoint>, n: nat)
  {
    match fail
    case None => true
    case Some(MandalartInsert) => true
    case Some(SubGoalInsert(k)) => k >= n
    case Some(ActionsInsert(k)) => k >= n
  }

  /** One more input extends the fault-free tables by one fault-free pass. */
  lemma GrownStep(t: Tabs, mid: nat, subs: seq<SubGoalInput>)
    requires subs != []
    ensures Grown(t, mid, subs) ==
      SubGoalStep(Grown(t, mid, subs[..|subs| - 1]), mid, |subs| - 1, subs[|subs| - 1], None).0
    ensures SubGoalStep(Grown(t, mid, subs[..|subs| - 1]), mid, |subs| - 1, subs[|subs| - 1], None).1
  {
    var init := subs[..|subs| - 1];
    var sg := subs[|subs| - 1];
    var g := Grown(t, mid, init);
    var rows := SubGoalRows(mid, init, t.nextId);
    var acts := ActionRows(init, t.nextId);
    assert g.nextId == t.nextId + |rows|;
    if Blank(sg.title) {
      assert SubGoalRows(mid, subs, t.nextId) == rows;
      assert ActionRows(subs, t.nextId) == acts;
      assert Filled(subs) == Filled(init);
    } else {
      var row := SubGoalRow(g.nextId, mid, sg.title, |subs|);
      var batch := ActionBatch(g.nextId, sg.actions);
      var g1 := g.(subGoals := g.subGoals + [row], nextId := g.nextId + 1);
      assert SubGoalRows(mid, subs, t.nextId) == rows + [row];
      assert ActionRows(subs, t.nextId) == acts + batch;
      assert Filled(subs) == Filled(init) + 1;
      assert t.subGoals + (rows + [row]) == g.subGoals + [row];
      assert t.actions + (acts + batch) == g1.actions + batch;
      if batch == [] {
        assert g1.actions + batch == g1.actions;
      }
    }
  }

  /** With no failing insert the walk inserts exactly `SubGoalRows` and
      `ActionRows`. */
  lemma {:induction false} FillClean(t: Tabs, mid: nat, subs: seq<SubGoalInput>, n: nat)
    requires n <= |subs|
    ensures Fill(t, mid, subs, n, None) == (Grown(t, mid, subs[..n]), true)
  {
    if n == 0 {
      assert subs[..0] == [];
      assert t.subGoals + [] == t.subGoals && t.actions + [] == t.actions;
    } else {
      FillClean(t, mid, subs, n - 1);
      GrownStep(t, mid, subs[..n]);
      assert subs[..n][..n - 1] == subs[..n - 1];
      assert subs[..n][n - 1] == subs[n - 1];
    }
  }

  /** A fault aimed at a later pass leaves the first `n` passes as they
      would be with no fault at all. */
  lemma {:induction false} FillSpared(t: Tabs, mid: nat, subs: seq<SubGoalInput>, n: nat, fail: Option<FailPoint>)
    requires n <= |subs| && Spares(fail, n)
    ensures Fill(t, mid, subs, n, fail) == Fill(t, mid, subs, n, None)
  {
    if n > 0 {
      FillSpared(t, mid, subs, n - 1, fail);
    }
  }

  /** The walk never touches `mandalarts` and only ever appends to the
      other tables: rows inserted before a failure stay. */
  lemma {:induction false} FillGrows(t: Tabs, mid: nat, subs: seq<SubGoalInput>, n: nat, fail: Option<FailPoint>)
    requires n <= |subs|
    ensures var r := Fill(t, mid, subs, n, fail).0;
      r.mandalarts == t.mandalarts && t.subGoals <= r.subGoals && t.actions <= r.actions && t.nextId <= r.nextId
  {
    if n > 0 {
      FillGrows(t, mid, subs, n - 1, fail);
    }
  }

  /** A failing sub-goal insert ends the create: the rows of the earlier
      sub-goals stay, and nothing of this sub-goal or of later ones is
      written. */
  lemma FailAtSubGoal(t: Tabs, mid: nat, subs: seq<SubGoalInput>, k: nat)
    requires k < |subs| && !Blank(subs[k].title)
    ensures Fill(t, mid, subs, |subs|, Some(SubGoalInsert(k))) == (Grown(t, mid, subs[..k]), false)
  {
    FillSpared(t, mid, subs, k, Some(SubGoalInsert(k)));
    FillClean(t, mid, subs, k);
    FillStops(t, mid, subs, k + 1, |subs|, Some(SubGoalInsert(k)));
  }

  /** A failing action batch ends the create too, with its sub-goal row
      already written. */
  lemma FailAtActions(t: Tabs, mid: nat, subs: seq<SubGoalInput>, k: nat)
    requires k < |subs| && !Blank(subs[k].title)
    requires ActionBatch(t.nextId + Filled(subs[..k]), subs[k].actions) != []
    ensures var g := Grown(t, mid, subs[..k]);
      Fill(t, mid, subs, |subs|, Some(ActionsInsert(k))) ==
        (g.(subGoals := g.subGoals + [SubGoalRow(g.nextId, mid, subs[k].title, k + 1)], nextId := g.nextId + 1), false)
  {
    FillSpared(t, mid, subs, k, Some(ActionsInsert(k)));
    FillClean(t, mid, subs, k);
    FillStops(t, mid, subs, k + 1, |subs|, Some(ActionsInsert(k)));
  }

  /** Sub-goal rows carry the mandalart's id and consecutive ids from
      `from`, a non-blank title, and a position in 1..|subs| taken from the
      input index of the sub-goal whose title they copy. */
  predicate SubGoalRowsFit(mid: nat, subs: seq<SubGoalInput>, from: nat, rows: seq<SubGoalRow>)
  {
    forall j :: 0 <= j < |rows| ==>
      rows[j].id == from + j && rows[j].mandalartId == mid && 1 <= rows[j].position <= |subs| &&
      rows[j].title == subs[rows[j].position - 1].title && !Blank(rows[j].title)
  }

  predicate SubGoalsRise(rows: seq<SubGoalRow>)
  {
    forall j, j' :: 0 <= j < j' < |rows| ==> rows[j].position < rows[j'].position
  }

  /** An action row belongs to sub-goal `sgId`, repeats its content as its
      title, and copies the non-blank content and the type (a routine when
      none is given) of the input at its position. */
  predicate ActionRowsFit(sgId: nat, acts: seq<ActionInput>, b: seq<ActionRow>)
  {
    forall j :: 0 <= j < |b| ==>
      b[j].subGoalId == sgId && b[j].title == b[j].content && 1 <= b[j].position <= |acts| &&
      b[j].content == acts[b[j].position - 1].content && !Blank(b[j].content) &&
      b[j].kind == acts[b[j].position - 1].kind.GetOr(Routine)
  }

  predicate ActionsRise(b: seq<ActionRow>)
  {
    forall j, j' :: 0 <= j < j' < |b| ==> b[j].position < b[j'].position
  }

  lemma {:induction false} SubGoalRowsElems(mid: nat, subs: seq<SubGoalInput>, from: nat)
    ensures SubGoalRowsFit(mid, subs, from, SubGoalRows(mid, subs, from))
  {
    if subs != [] {
      var init := subs[..|subs| - 1];
      SubGoalRowsElems(mid, init, from);
      assert forall i :: 0 <= i < |init| ==> init[i] == subs[i];
    }
  }

  /** Sub-goal positions rise strictly. */
  lemma {:induction false} SubGoalRowsIncreasing(mid: nat, subs: seq<SubGoalInput>, from: nat)
    ensures SubGoalsRise(SubGoalRows(mid, subs, from))
  {
    if subs != [] {
      SubGoalRowsIncreasing(mid, subs[..|subs| - 1], from);
      SubGoalRowsElems(mid, subs[..|subs| - 1], from);
    }
  }

  /** The rows built from all but the last input sit below its position. */
  lemma SubGoalRowsBelow(mid: nat, subs: seq<SubGoalInput>, from: nat)
    requires subs != []
    ensures forall r :: r in SubGoalRows(mid, subs[..|subs| - 1], from) ==> r.position < |subs|
  {
    var prev := SubGoalRows(mid, subs[..|subs| - 1], from);
    SubGoalRowsElems(mid, subs[..|subs| - 1], from);
    forall r | r in prev
      ensures r.position < |subs|
    {
      var j :| 0 <= j < |prev| && prev[j] == r;
    }
  }

  /** A position is taken exactly when the input of that index has a
      non-blank title, so blank titles leave gaps. */
  lemma {:induction false} SubGoalRowsSlots(mid: nat, subs: seq<SubGoalInput>, from: nat)
    ensures forall i :: 0 <= i < |subs| ==> (!Blank(subs[i].title) <==> i + 1 in Positions(SubGoalRows(mid, subs, from)))
  {
    if subs != [] {
      var init := subs[..|subs| - 1];
      SubGoalRowsSlots(mid, init, from);
      SubGoalRowsBelow(mid, subs, from);
      var prev := SubGoalRows(mid, init, from);
      assert forall i :: 0 <= i < |init| ==> init[i] == subs[i];
      if !Blank(subs[|subs| - 1].title) {
        assert Positions(SubGoalRows(mid, subs, from)) == Positions(prev) + {|subs|};
      } else {
        assert Positions(SubGoalRows(mid, subs, from)) == Positions(prev);
      }
    }
  }

  lemma {:induction false} ActionBatchElems(sgId: nat, acts: seq<ActionInput>)
    ensures ActionRowsFit(sgId, acts, ActionBatch(sgId, acts))
  {
    if acts != [] {
      var init := acts[..|acts| - 1];
      ActionBatchElems(sgId, init);
      assert forall i :: 0 <= i < |init| ==> init[i] == acts[i];
    }
  }

  /** Action positions rise strictly. */
  lemma {:induction false} ActionBatchIncreasing(sgId: nat, acts: seq<ActionInput>)
    ensures ActionsRise(ActionBatch(sgId, acts))
  {
    if acts != [] {
      ActionBatchIncreasing(sgId, acts[..|acts| - 1]);
      ActionBatchElems(sgId, acts[..|acts| - 1]);
    }
  }

  /** The actions built from all but the last input sit below its position. */
  lemma ActionBatchBelow(sgId: nat, acts: seq<ActionInput>)
    requires acts != []
    ensures forall r :: r in ActionBatch(sgId, acts[..|acts| - 1]) ==> r.position < |acts|
  {
    var prev := ActionBatch(sgId, acts[..|acts| - 1]);
    ActionBatchElems(sgId, acts[..|acts| - 1]);
    forall r | r in prev
      ensures r.position < |acts|
    {
      var j :| 0 <= j < |prev| && prev[j] == r;
    }
  }

  /** An action position is taken exactly when the input of that index has
      a non-blank content. */
  lemma {:induction false} ActionBatchSlots(sgId: nat, acts: seq<ActionInput>)
    ensures forall i :: 0 <= i < |acts| ==> (!Blank(acts[i].content) <==> i + 1 in ActionPositions(ActionBatch(sgId, acts)))
  {
    if acts != [] {
      var init := acts[..|acts| - 1];
      ActionBatchSlots(sgId, init);
      ActionBatchBelow(sgId, acts);
      var prev := ActionBatch(sgId, init);
      assert forall i :: 0 <= i < |init| ==> init[i] == acts[i];
      if !Blank(acts[|acts| - 1].content) {
        assert ActionPositions(ActionBatch(sgId, acts)) == ActionPositions(prev) + {|acts|};
      } else {
        assert ActionPositions(ActionBatch(sgId, acts)) == ActionPositions(prev);
      }
    }
  }

  /** Three sub-goals, the middle one blank, give positions 1 and 3. */
  lemma PositionsMayHaveGaps()
    ensures SubGoalRows(7, [SubGoalInput("a", []), SubGoalInput(" ", []), SubGoalInput("b", [])], 10) ==
      [SubGoalRow(10, 7, "a", 1), SubGoalRow(11, 7, "b", 3)]
  {
    var subs := [SubGoalInput("a", []), SubGoalInput(" ", []), SubGoalInput("b", [])];
    assert !Blank(subs[0].title) by { assert subs[0].title[0] == 'a'; }
    assert Blank(subs[1].title) by { assert forall i :: 0 <= i < |subs[1].title| ==> subs[1].title[i] == ' '; }
    assert !Blank(subs[2].title) by { assert subs[2].title[0] == 'b'; }
    assert subs[..2][..1] == subs[..1];
    assert subs[..1][..0] == [];
    assert subs[..3] == subs;
    assert SubGoalRows(7, subs[..1], 10) == [SubGoalRow(10, 7, "a", 1)];
    assert SubGoalRows(7, subs[..2], 10) == [SubGoalRow(10, 7, "a", 1)];
  }

  function ActiveCount(ms: seq<MandalartRow>): nat
  {
    if ms == [] then 0 else ActiveCount(ms[..|ms| - 1]) + (if ms[|ms| - 1].isActive then 1 else 0)
  }

  /** Once past the mandalart insert, a create appends one active,
      manual-input mandalart titled by its centre goal and changes no other
      mandalart: one more is active than before, whatever was active. */
  lemma CreateAddsActive(t: Tabs, user: Option<nat>, centerGoal: string, subs: seq<SubGoalInput>,
                         fail: Option<FailPoint>)
    requires user.Some? && fail != Some(MandalartInsert)
    ensures var e := CreateEffect(t, user, centerGoal, subs, fail);
      var m := MandalartRow(t.nextId, user.value, centerGoal, centerGoal, Manual, true);
      e.1.mandalarts == t.mandalarts + [m] && (e.0.Ok? ==> e.0.value == m) &&
      ActiveCount(e.1.mandalarts) == ActiveCount(t.mandalarts) + 1
  {
    var m := MandalartRow(t.nextId, user.value, centerGoal, centerGoal, Manual, true);
    FillGrows(t.(mandalarts := t.mandalarts + [m], nextId := t.nextId + 1), m.id, subs, |subs|, fail);
    assert (t.mandalarts + [m])[..|t.mandalarts|] == t.mandalarts;
  }

  /** A create no insert of which fails returns the new mandalart and
      inserts exactly the rows `SubGoalRows` and `ActionRows` describe. */
  lemma CreateClean(t: Tabs, user: nat, centerGoal: string, subs: seq<SubGoalInput>, fail: Option<FailPoint>)
    requires Spares(fail, |subs|)
    ensures var m := MandalartRow(t.nextId, user, centerGoal, centerGoal, Manual, true);
      CreateEffect(t, Some(user), centerGoal, subs, fail) ==
        if fail == Some(MandalartInsert) then (Err(InsertFailed), t)
        else (Ok(m), Grown(t.(mandalarts := t.mandalarts + [m], nextId := t.nextId + 1), m.id, subs))
  {
    if fail != Some(MandalartInsert) {
      var m := MandalartRow(t.nextId, user, centerGoal, centerGoal, Manual, true);
      var t1 := t.(mandalarts := t.mandalarts + [m], nextId := t.nextId + 1);
      FillSpared(t1, m.id, subs, |subs|, fail);
      FillClean(t1, m.id, subs, |subs|);
      assert subs[..|subs|] == subs;
    }
  }

  /** The ids of a list of sub-goal rows. */
  function Ids(rows: seq<SubGoalRow>): set<nat>
  {
    set g | g in rows :: g.id
  }

  /** One fault-free or faulty pass keeps every id below the next one. */
  lemma StepKeepsValid(t: Tabs, mid: nat, i: nat, sg: SubGoalInput, fail: Option<FailPoint>)
    requires Valid(t) && mid < t.nextId
    ensures Valid(SubGoalStep(t, mid, i, sg, fail).0)
    ensures t.nextId <= SubGoalStep(t, mid, i, sg, fail).0.nextId
  {
    ActionBatchElems(t.nextId, sg.actions);
    var batch := ActionBatch(t.nextId, sg.actions);
    forall a | a in batch
      ensures a.subGoalId == t.nextId
    {
      var j :| 0 <= j < |batch| && batch[j] == a;
    }
  }

  lemma {:induction false} FillKeepsValid(t: Tabs, mid: nat, subs: seq<SubGoalInput>, n: nat, fail: Option<FailPoint>)
    requires n <= |subs| && Valid(t) && mid < t.nextId
    ensures Valid(Fill(t, mid, subs, n, fail).0) && t.nextId <= Fill(t, mid, subs, n, fail).0.nextId
  {
    if n > 0 {
      FillKeepsValid(t, mid, subs, n - 1, fail);
      var prev := Fill(t, mid, subs, n - 1, fail);
      if prev.1 {
        StepKeepsValid(prev.0, mid, n - 1, subs[n - 1], fail);
      }
    }
  }

  /** Whatever insert fails, a create keeps every id below the next one. */
  lemma CreateKeepsValid(t: Tabs, user: Option<nat>, centerGoal: string, subs: seq<SubGoalInput>,
                         fail: Option<FailPoint>)
    requires Valid(t)
    ensures Valid(CreateEffect(t, user, centerGoal, subs, fail).1)
  {
    if user.Some? && fail != Some(MandalartInsert) {
      var m := MandalartRow(t.nextId, user.value, centerGoal, centerGoal, Manual, true);
      FillKeepsValid(t.(mandalarts := t.mandalarts + [m], nextId := t.nextId + 1), m.id, subs, |subs|, fail);
    }
  }

  /** Every fault-free action row points at one of the fault-free sub-goal rows. */
  lemma {:induction false} ActionRowsRefer(mid: nat, subs: seq<SubGoalInput>, from: nat)
    ensures forall a :: a in ActionRows(subs, from) ==> a.subGoalId in Ids(SubGoalRows(mid, subs, from))
  {
    if subs != [] {
      var init := subs[..|subs| - 1];
      var sg := subs[|subs| - 1];
      ActionRowsRefer(mid, init, from);
      var prev := SubGoalRows(mid, init, from);
      var rows := SubGoalRows(mid, subs, from);
      var before := ActionRows(init, from);
      forall a | a in ActionRows(subs, from)
        ensures a.subGoalId in Ids(rows)
      {
        if a in before {
          var g :| g in prev && g.id == a.subGoalId;
          assert g in rows;
        } else {
          var batch := ActionBatch(from + Filled(init), sg.actions);
          assert !Blank(sg.title) && a in batch;
          ActionBatchElems(from + Filled(init), sg.actions);
          var j :| 0 <= j < |batch| && batch[j] == a;
          assert rows[|prev|] in rows;
        }
      }
    }
  }

  /** Deleting a freshly created mandalart undoes the create: the cascade
      removes exactly the sub-goals and actions it inserted, and only the
      id counter remembers it. */
  lemma CreateThenDelete(t: Tabs, user: nat, centerGoal: string, subs: seq<SubGoalInput>)
    requires Valid(t)
    ensures CreateEffect(t, Some(user), centerGoal, subs, None).0.Ok?
    ensures Deleted(CreateEffect(t, Some(user), centerGoal, subs, None).1, t.nextId) ==
      t.(nextId := CreateEffect(t, Some(user), centerGoal, subs, None).1.nextId)
  {
    var m := MandalartRow(t.nextId, user, centerGoal, centerGoal, Manual, true);
    var t1 := t.(mandalarts := t.mandalarts + [m], nextId := t.nextId + 1);
    CreateClean(t, user, centerGoal, subs, None);
    var g := Grown(t1, m.id, subs);
    var rows := SubGoalRows(m.id, subs, t1.nextId);
    var acts := ActionRows(subs, t1.nextId);
    SubGoalRowsElems(m.id, subs, t1.nextId);
    ActionRowsRefer(m.id, subs, t1.nextId);

    forall r | r in rows
      ensures r.mandalartId == m.id && r.id > m.id
    {
      var j :| 0 <= j < |rows| && rows[j] == r;
    }
    DropLast(t.mandalarts, m);
    DropAppended(t.subGoals, rows, m.id);
    var gone := SubGoalIdsOf(t.subGoals + rows, m.id);
    assert Ids(rows) <= gone;
    DropCascaded(t.actions, acts, gone);
  }

  lemma DropLast(ms: seq<MandalartRow>, m: MandalartRow)
    requires forall x :: x in ms ==> x.id < m.id
    ensures Filter(ms + [m], OtherMandalart(m.id)) == ms
  {
    FilterAppend(ms, [m], OtherMandalart(m.id));
    FilterAllOrNone(ms, OtherMandalart(m.id));
    FilterAllOrNone([m], OtherMandalart(m.id));
  }

  lemma DropAppended(gs: seq<SubGoalRow>, rows: seq<SubGoalRow>, mid: nat)
    requires forall g :: g in gs ==> g.mandalartId < mid
    requires forall r :: r in rows ==> r.mandalartId == mid
    ensures Filter(gs + rows, OtherSubGoal(mid)) == gs
  {
    FilterAppend(gs, rows, OtherSubGoal(mid));
    FilterAllOrNone(gs, OtherSubGoal(mid));
    FilterAllOrNone(rows, OtherSubGoal(mid));
  }

  lemma DropCascaded(kept: seq<ActionRow>, acts: seq<ActionRow>, gone: set<nat>)
    requires forall a :: a in kept ==> a.subGoalId !in gone
    requires forall a :: a in acts ==> a.subGoalId in gone
    ensures Filter(kept + acts, Outside(gone)) == kept
  {
    FilterAppend(kept, acts, Outside(gone));
    FilterAllOrNone(kept, Outside(gone));
    FilterAllOrNone(acts, Outside(gone));
  }

  /** `.single()` finds a row exactly when some row has the id, and what it
      finds is a row with that id. */
  lemma {:induction false} FindSpec(ms: seq<MandalartRow>, id: nat)
    ensures Find(ms, id).None? <==> forall k :: 0 <= k < |ms| ==> ms[k].id != id
    ensures Find(ms, id).Some? ==> Find(ms, id).value in ms && Find(ms, id).value.id == id
  {
    if ms != [] && ms[0].id != id {
      FindSpec(ms[1..], id);
      assert forall k :: 1 <= k < |ms| ==> ms[k] == ms[1..][k - 1];
    }
  }

  /** Activation succeeds exactly when the id exists; afterwards the chosen
      mandalart is the only active one among the user's. A missing id still
      leaves all of the user's mandalarts inactive, and other users' rows
      change only if they carry the chosen id. */
  lemma ActivateOnlyChosen(ms: seq<MandalartRow>, user: nat, id: nat, r: Result<MandalartRow, Failure>,
                           ms': seq<MandalartRow>)
    requires (r, ms') == ActivateEffect(ms, Some(user), id, true, true)
    ensures |ms'| == |ms|
    ensures r.Ok? <==> exists k :: 0 <= k < |ms| && ms[k].id == id
    ensures r.Ok? ==> r.value.id == id && r.value.isActive && r.value in ms'
    ensures r.Ok? ==> forall k :: 0 <= k < |ms'| && ms'[k].userId == user ==> (ms'[k].isActive <==> ms'[k].id == id)
    ensures r.Err? ==> r.error == NotFound && forall k :: 0 <= k < |ms'| && ms'[k].userId == user ==> !ms'[k].isActive
    ensures forall k :: 0 <= k < |ms| && ms[k].userId != user && ms[k].id != id ==> ms'[k] == ms[k]
  {
    var off := Deactivated(ms, user);
    FindSpec(off, id);
    if r.Ok? {
      var k :| 0 <= k < |off| && off[k] == Find(off, id).value;
      assert ms'[k] == r.value;
    } else {
      assert forall k :: 0 <= k < |ms| ==> off[k].id == ms[k].id;
    }
  }

  /** The bulk deactivation's error is ignored: when it fails, a mandalart
      of the user that was active stays active next to the chosen one. */
  lemma ActivateIgnoresBulkFailure(ms: seq<MandalartRow>, user: nat, id: nat, k: nat,
                                   r: Result<MandalartRow, Failure>, ms': seq<MandalartRow>)
    requires (r, ms') == ActivateEffect(ms, Some(user), id, false, true)
    requires k < |ms| && ms[k].userId == user && ms[k].isActive && ms[k].id != id
    ensures r.Ok? <==> exists j :: 0 <= j < |ms| && ms[j].id == id
    ensures ms'[k] == ms[k] && ms'[k].isActive
  {
    FindSpec(ms, id);
  }

  /** An update succeeds exactly when the id exists; it writes the supplied
      columns of that row, keeps its other columns, and leaves every other
      row alone. */
  lemma UpdateWritesSupplied(ms: seq<MandalartRow>, id: nat, p: Patch, r: Result<MandalartRow, Failure>,
                             ms': seq<MandalartRow>)
    requires (r, ms') == UpdateEffect(ms, id, p, true)
    ensures |ms'| == |ms|
    ensures r.Ok? <==> exists k :: 0 <= k < |ms| && ms[k].id == id
    ensures r.Ok? ==> r.value in ms' && r.value.id == id
    ensures forall k :: 0 <= k < |ms| && ms[k].id != id ==> ms'[k] == ms[k]
    ensures forall k :: 0 <= k < |ms| && ms[k].id == id ==>
      ms'[k].id == id && ms'[k].userId == ms[k].userId &&
      ms'[k].title == (if p.title.Some? then p.title.value else ms[k].title) &&
      ms'[k].centerGoal == (if p.centerGoal.Some? then p.centerGoal.value else ms[k].centerGoal) &&
      ms'[k].inputMethod == (if p.inputMethod.Some? then p.inputMethod.value else ms[k].inputMethod) &&
      ms'[k].isActive == (if p.isActive.Some? then p.isActive.value else ms[k].isActive)
  {
    FindSpec(ms, id);
    if r.Ok? {
      var k :| 0 <= k < |ms| && ms[k] == Find(ms, id).value;
      assert ms'[k] == r.value;
    } else {
      assert ms' == ms;
    }
  }

  /** Repeating an update changes nothing more. */
  lemma UpdateIdempotent(ms: seq<MandalartRow>, id: nat, p: Patch)
    ensures var once := UpdateEffect(ms, id, p, true);
      UpdateEffect(once.1, id, p, true) == once
  {
    var once := UpdateEffect(ms, id, p, true);
    FindSpec(ms, id);
    FindSpec(once.1, id);
    if once.0.Ok? {
      var twice := Patched(once.1, id, p);
      assert twice == once.1;
      FindPatched(ms, id, p);
    }
  }

  /** After an update, `.single()` finds the patched row. */
  lemma {:induction false} FindPatched(ms: seq<MandalartRow>, id: nat, p: Patch)
    requires Find(ms, id).Some?
    ensures Find(Patched(ms, id, p), id) == Some(Apply(Find(ms, id).value, p))
  {
    if ms[0].id != id {
      FindPatched(ms[1..], id, p);
      assert Patched(ms, id, p)[1..] == Patched(ms[1..], id, p);
    }
  }

  /** A delete removes exactly the rows of that id, their sub-goals and
      those sub-goals' actions, and keeps every id below the next one. */
  lemma DeleteRemoves(t: Tabs, id: nat)
    ensures forall m :: m in Deleted(t, id).mandalarts <==> m in t.mandalarts && m.id != id
    ensures forall g :: g in Deleted(t, id).subGoals <==> g in t.subGoals && g.mandalartId != id
    ensures forall a :: a in Deleted(t, id).actions <==>
      a in t.actions && a.subGoalId !in SubGoalIdsOf(t.subGoals, id)
    ensures Find(Deleted(t, id).mandalarts, id).None?
    ensures Valid(t) ==> Valid(Deleted(t, id))
  {
    FilterMembers(t.mandalarts, OtherMandalart(id));
    FilterMembers(t.subGoals, OtherSubGoal(id));
    FilterMembers(t.actions, Outside(SubGoalIdsOf(t.subGoals, id)));
    var ms := Deleted(t, id).mandalarts;
    FindSpec(ms, id);
    assert forall k :: 0 <= k < |ms| ==> ms[k] in ms;
  }
}
