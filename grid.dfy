/** The 9×9 Mandalart board the detail screen draws: the centre goal in the
    middle, the eight sub-goals around it, and up to eight actions of each
    sub-goal in one of the 3×3 blocks. The board is built by writing cells
    into a 9×9 array one after another, later writes replacing earlier ones;
    `Writes` lists those writes and `Final` reads a cell off the list. */
module Grid {
  import opened Common

  datatype Kind = Center | SubGoal | Action

  /** One cell of the board: `{type, content, id}`. */
  datatype Cell = Cell(kind: Kind, content: string, id: Option<nat>)

  datatype ActionView = ActionView(id: nat, content: string, title: string)
  datatype SubGoalView = SubGoalView(id: nat, title: string, actions: seq<ActionView>)

  /** A mandalart with its sub-goals and their actions, as the detail query returns it. */
  datatype Detail = Detail(id: nat, centerGoal: string, subGoals: seq<SubGoalView>)

  /** `grid[row][col] = cell`. */
  datatype Write = Write(row: nat, col: nat, cell: Cell)

  /** Every cell starts as an empty action cell without an id. */
  const EmptyCell: Cell := Cell(Action, "", None)

  /** Where sub-goal `i` is drawn: clockwise around the centre from the top-left. */
  const SubGoalSlots: seq<(nat, nat)> := [(3, 3), (3, 4), (3, 5), (4, 5), (5, 5), (5, 4), (5, 3), (4, 3)]

  /** Where action `j` is drawn inside its 3×3 block. */
  const ActionOffsets: seq<(nat, nat)> := [(0, 0), (0, 1), (0, 2), (1, 2), (2, 2), (2, 1), (2, 0), (1, 0)]

  /** The cell action `j` of sub-goal `i` goes to: block `i`, counted row by
      row, at the action's offset. */
  function ActionSpot(i: nat, j: nat): (nat, nat)
    requires j < 8
  {
    (i / 3 * 3 + ActionOffsets[j].0, i % 3 * 3 + ActionOffsets[j].1)
  }

  /** The 3×3 block a cell lies in, counted row by row from 0 to 8. */
  function Block(p: (nat, nat)): nat
  {
    p.0 / 3 * 3 + p.1 / 3
  }

  /** An action write is skipped when it would land on its own sub-goal's cell. */
  predicate Skipped(i: nat, j: nat)
    requires i < 8 && j < 8
  {
    ActionSpot(i, j) == SubGoalSlots[i]
  }

  /** `action.content || action.title`: an empty content falls back to the title. */
  function ActionContent(a: ActionView): (s: string)
    ensures a.content != "" ==> s == a.content
    ensures a.content == "" ==> s == a.title
  {
    if a.content != "" then a.content else a.title
  }

  function CenterWrite(d: Detail): Write
  {
    Write(4, 4, Cell(Center, d.centerGoal, Some(d.id)))
  }

  function SubGoalWrite(i: nat, sg: SubGoalView): Write
    requires i < 8
  {
    Write(SubGoalSlots[i].0, SubGoalSlots[i].1, Cell(SubGoal, sg.title, Some(sg.id)))
  }

  function ActionWrite(i: nat, j: nat, a: ActionView): Write
    requires j < 8
  {
    Write(ActionSpot(i, j).0, ActionSpot(i, j).1, Cell(Action, ActionContent(a), Some(a.id)))
  }

  /** The writes for the first `n` actions of sub-goal `i`: only the first
      eight, and none onto the sub-goal's own cell. */
  function ActionWrites(i: nat, acts: seq<ActionView>, n: nat): seq<Write>
    requires i < 8 && n <= |acts|
  {
    if n == 0 then []
    else if n - 1 < 8 && !Skipped(i, n - 1) then ActionWrites(i, acts, n - 1) + [ActionWrite(i, n - 1, acts[n - 1])]
    else ActionWrites(i, acts, n - 1)
  }

  function GroupWrites(i: nat, sg: SubGoalView): seq<Write>
    requires i < 8
  {
    [SubGoalWrite(i, sg)] + ActionWrites(i, sg.actions, |sg.actions|)
  }

  /** The writes for the first `n` sub-goals: only the first eight draw anything. */
  function SubGoalWrites(subs: seq<SubGoalView>, n: nat): seq<Write>
    requires n <= |subs|
  {
    if n == 0 then []
    else SubGoalWrites(subs, n - 1) + (if n - 1 < 8 then GroupWrites(n - 1, subs[n - 1]) else [])
  }

  /** Every write the screen makes, in order. */
  function Writes(d: Detail): seq<Write>
  {
    [CenterWrite(d)] + SubGoalWrites(d.subGoals, |d.subGoals|)
  }

  /** The cell at (r, c) after the writes `ws` onto a cell holding `d`: the
      last write to (r, c) wins. */
  function Final(ws: seq<Write>, r: nat, c: nat, d: Cell): Cell
  {
    if ws == [] then d
    else if ws[|ws| - 1].row == r && ws[|ws| - 1].col == c then ws[|ws| - 1].cell
    else Final(ws[..|ws| - 1], r, c, d)
  }

  // ----- the screen's loops -----

  /** The 9×9 array `g` holds, cell by cell, what the writes `ws` leave. */
  ghost predicate Shows(g: array2<Cell>, ws: seq<Write>)
    reads g
  {
    g.Length0 == 9 && g.Length1 == 9 &&
    forall r, c :: 0 <= r < 9 && 0 <= c < 9 ==> g[r, c] == Final(ws, r, c, EmptyCell)
  }

  /** Builds the board as the screen does: the centre, then for each of the
      first eight sub-goals its cell and its first eight actions. */
  method BuildGrid(d: Detail) returns (g: array2<Cell>)
    ensures fresh(g) && g.Length0 == 9 && g.Length1 == 9
    ensures forall r, c :: 0 <= r < 9 && 0 <= c < 9 ==> g[r, c] == Final(Writes(d), r, c, EmptyCell)
  {
    g := new Cell[9, 9]((r, c) => EmptyCell);
    assert Shows(g, []);
    Draw(g, [], CenterWrite(d));
    assert [] + [CenterWrite(d)] == [CenterWrite(d)] + SubGoalWrites(d.subGoals, 0);
    var i := 0;
    while i < |d.subGoals|
      invariant 0 <= i <= |d.subGoals|
      invariant Shows(g, [CenterWrite(d)] + SubGoalWrites(d.subGoals, i))
    {
      ghost var done := [CenterWrite(d)] + SubGoalWrites(d.subGoals, i);
      ghost var next := [CenterWrite(d)] + SubGoalWrites(d.subGoals, i + 1);
      if i < 8 {
        DrawGroup(g, i, d.subGoals[i], done);
        assert done + GroupWrites(i, d.subGoals[i]) == next;
      } else {
        assert done == next;
      }
      i := i + 1;
    }
  }

  /** `grid[row][col] = cell` for one write. */
  method Draw(g: array2<Cell>, ghost ws: seq<Write>, w: Write)
    requires Shows(g, ws) && w.row < 9 && w.col < 9
    modifies g
    ensures Shows(g, ws + [w])
  {
    g[w.row, w.col] := w.cell;
    FinalSnoc(ws, w, EmptyCell);
  }

  /** One pass of the outer loop: the sub-goal's cell, then its actions. */
  method DrawGroup(g: array2<Cell>, i: nat, sg: SubGoalView, ghost done: seq<Write>)
    requires i < 8 && Shows(g, done)
    modifies g
    ensures Shows(g, done + GroupWrites(i, sg))
  {
    Draw(g, done, SubGoalWrite(i, sg));
    DrawActions(g, i, sg, done + [SubGoalWrite(i, sg)]);
    assert done + [SubGoalWrite(i, sg)] + ActionWrites(i, sg.actions, |sg.actions|) == done + GroupWrites(i, sg);
  }

  /** The inner loop: the first eight actions of sub-goal `i` into its
      block, passing over the sub-goal's own cell. */
  method DrawActions(g: array2<Cell>, i: nat, sg: SubGoalView, ghost before: seq<Write>)
    requires i < 8 && Shows(g, before)
    modifies g
    ensures Shows(g, before + ActionWrites(i, sg.actions, |sg.actions|))
  {
    var j := 0;
    assert before + ActionWrites(i, sg.actions, 0) == before;
    while j < |sg.actions|
      invariant 0 <= j <= |sg.actions|
      invariant Shows(g, before + ActionWrites(i, sg.actions, j))
    {
      ghost var ws := before + ActionWrites(i, sg.actions, j);
      if j < 8 {
        var (gridRow, gridCol) := ActionSpot(i, j);
        if (gridRow, gridCol) != SubGoalSlots[i] {
          Draw(g, ws, Write(gridRow, gridCol, Cell(Action, ActionContent(sg.actions[j]), Some(sg.actions[j].id))));
          assert before + ActionWrites(i, sg.actions, j + 1) == ws + [ActionWrite(i, j, sg.actions[j])];
        } else {
          assert ActionWrites(i, sg.actions, j + 1) == ActionWrites(i, sg.actions, j);
        }
      } else {
        assert ActionWrites(i, sg.actions, j + 1) == ActionWrites(i, sg.actions, j);
      }
      j := j + 1;
    }
  }

  // ----- reading cells off the writes -----

  lemma FinalSnoc(ws: seq<Write>, w: Write, d: Cell)
    ensures forall r, c :: Final(ws + [w], r, c, d) == if w.row == r && w.col == c then w.cell else Final(ws, r, c, d)
  {
    assert (ws + [w])[..|ws|] == ws;
  }

  lemma {:induction false} FinalConcat(a: seq<Write>, b: seq<Write>, r: nat, c: nat, d: Cell)
    ensures Final(a + b, r, c, d) == Final(b, r, c, Final(a, r, c, d))
  {
    if b == [] {
      assert a + b == a;
    } else {
      FinalConcat(a, b[..|b| - 1], r, c, d);
      assert (a + b)[..|a + b| - 1] == a + b[..|b| - 1];
    }
  }

  /** Neither sub-goal `i` nor any of its actions is drawn at (r, c). */
  predicate Untouched(i: nat, r: nat, c: nat)
    requires i < 8
  {
    SubGoalSlots[i] != (r, c) && ActionsMiss(i, r, c)
  }

  /** No action of sub-goal `i` is drawn at (r, c). */
  predicate ActionsMiss(i: nat, r: nat, c: nat)
  {
    forall j :: 0 <= j < 8 ==> ActionSpot(i, j) != (r, c)
  }

  lemma {:induction false} ActionsUntouched(i: nat, acts: seq<ActionView>, n: nat, r: nat, c: nat, d: Cell)
    requires i < 8 && n <= |acts| && ActionsMiss(i, r, c)
    ensures Final(ActionWrites(i, acts, n), r, c, d) == d
  {
    if n > 0 {
      ActionsUntouched(i, acts, n - 1, r, c, d);
      var prev := ActionWrites(i, acts, n - 1);
      if n - 1 < 8 && !Skipped(i, n - 1) {
        FinalSnoc(prev, ActionWrite(i, n - 1, acts[n - 1]), d);
      }
    }
  }

  lemma GroupUntouched(i: nat, sg: SubGoalView, r: nat, c: nat, d: Cell)
    requires i < 8 && Untouched(i, r, c)
    ensures Final(GroupWrites(i, sg), r, c, d) == d
  {
    FinalConcat([SubGoalWrite(i, sg)], ActionWrites(i, sg.actions, |sg.actions|), r, c, d);
    FinalSnoc([], SubGoalWrite(i, sg), d);
    ActionsUntouched(i, sg.actions, |sg.actions|, r, c, d);
  }

  /** Two actions of one sub-goal never share a cell. */
  lemma SpotsDistinct(i: nat, j: nat, k: nat)
    requires j < 8 && k < 8 && j != k
    ensures ActionSpot(i, j) != ActionSpot(i, k)
  {
  }

  /** What the first `n` actions of sub-goal `i` leave at the cell of action `j`. */
  lemma {:induction false} ActionsAt(i: nat, acts: seq<ActionView>, n: nat, j: nat, d: Cell)
    requires i < 8 && n <= |acts| && j < 8
    ensures Final(ActionWrites(i, acts, n), ActionSpot(i, j).0, ActionSpot(i, j).1, d) ==
      if j < n && !Skipped(i, j) then Cell(Action, ActionContent(acts[j]), Some(acts[j].id)) else d
  {
    if n > 0 {
      ActionsAt(i, acts, n - 1, j, d);
      var prev := ActionWrites(i, acts, n - 1);
      if n - 1 < 8 && !Skipped(i, n - 1) {
        FinalSnoc(prev, ActionWrite(i, n - 1, acts[n - 1]), d);
        if n - 1 != j {
          SpotsDistinct(i, j, n - 1);
        }
      }
    }
  }

  /** Sub-goals in [m, n) that leave (r, c) alone do not change it. */
  lemma {:induction false} GroupsSkip(subs: seq<SubGoalView>, m: nat, n: nat, r: nat, c: nat, d: Cell)
    requires m <= n <= |subs|
    requires forall i :: m <= i < n && i < 8 ==> Untouched(i, r, c)
    ensures Final(SubGoalWrites(subs, n), r, c, d) == Final(SubGoalWrites(subs, m), r, c, d)
  {
    if m < n {
      GroupsSkip(subs, m, n - 1, r, c, d);
      if n - 1 < 8 {
        FinalConcat(SubGoalWrites(subs, n - 1), GroupWrites(n - 1, subs[n - 1]), r, c, d);
        GroupUntouched(n - 1, subs[n - 1], r, c, Final(SubGoalWrites(subs, n - 1), r, c, d));
      } else {
        assert SubGoalWrites(subs, n) == SubGoalWrites(subs, n - 1);
      }
    }
  }

  /** Sub-goal `i` contributes its group on top of what came before. */
  lemma GroupsStep(subs: seq<SubGoalView>, i: nat, r: nat, c: nat, d: Cell)
    requires i < |subs| && i < 8
    ensures Final(SubGoalWrites(subs, i + 1), r, c, d) ==
      Final(GroupWrites(i, subs[i]), r, c, Final(SubGoalWrites(subs, i), r, c, d))
  {
    FinalConcat(SubGoalWrites(subs, i), GroupWrites(i, subs[i]), r, c, d);
  }

  /** Off the centre, the centre write does not matter. */
  lemma OffCentre(d: Detail, r: nat, c: nat)
    requires (r, c) != (4, 4)
    ensures Final(Writes(d), r, c, EmptyCell) == Final(SubGoalWrites(d.subGoals, |d.subGoals|), r, c, EmptyCell)
  {
    FinalConcat([CenterWrite(d)], SubGoalWrites(d.subGoals, |d.subGoals|), r, c, EmptyCell);
    FinalSnoc([], CenterWrite(d), EmptyCell);
  }

  // ----- where things are -----

  /** Action `j` of sub-goal `i` is drawn inside block `i`. */
  lemma SpotInBlock(i: nat, j: nat)
    requires i < 8 && j < 8
    ensures Block(ActionSpot(i, j)) == i
  {
  }

  /** Every sub-goal is drawn in the middle block, and the centre is not a sub-goal cell. */
  lemma SlotsInMiddle(i: nat)
    requires i < 8
    ensures Block(SubGoalSlots[i]) == 4 && SubGoalSlots[i] != (4, 4)
  {
  }

  /** The slots of different sub-goals are different cells. */
  lemma SlotsDistinct(i: nat, k: nat)
    requires i < 8 && k < 8 && i != k
    ensures SubGoalSlots[i] != SubGoalSlots[k]
  {
  }

  /** An action of the middle sub-goal lands exactly on a sub-goal slot. */
  lemma MiddleSpots(j: nat)
    requires j < 8
    ensures ActionSpot(4, j) == SubGoalSlots[j]
  {
  }

  /** The only action write the screen skips is action 4 of sub-goal 4:
      no other sub-goal's block holds its own cell. */
  lemma SkipOnlyMiddle(i: nat, j: nat)
    requires i < 8 && j < 8
    ensures Skipped(i, j) <==> i == 4 && j == 4
  {
    SpotInBlock(i, j);
    SlotsInMiddle(i);
    MiddleSpots(j);
    if i == 4 && j != 4 {
      SlotsDistinct(j, 4);
    }
  }

  /** A cell outside the middle block is touched only by the sub-goal whose block it is in. */
  lemma OnlyOwnBlock(i: nat, r: nat, c: nat)
    requires i < 8 && Block((r, c)) != 4 && Block((r, c)) != i
    ensures Untouched(i, r, c)
  {
    SlotsInMiddle(i);
    forall j | 0 <= j < 8
      ensures ActionSpot(i, j) != (r, c)
    {
      SpotInBlock(i, j);
    }
  }

  // ----- the board -----

  /** The centre cell always shows the centre goal. */
  lemma CentreShowsGoal(d: Detail)
    ensures Final(Writes(d), 4, 4, EmptyCell) == Cell(Center, d.centerGoal, Some(d.id))
  {
    var subs := d.subGoals;
    forall i | 0 <= i < |subs| && i < 8
      ensures Untouched(i, 4, 4)
    {
      SlotsInMiddle(i);
      forall j | 0 <= j < 8
        ensures ActionSpot(i, j) != (4, 4)
      {
        SpotInBlock(i, j);
        if i == 4 {
          MiddleSpots(j);
          SlotsInMiddle(j);
        }
      }
    }
    FinalConcat([CenterWrite(d)], SubGoalWrites(subs, |subs|), 4, 4, EmptyCell);
    FinalSnoc([], CenterWrite(d), EmptyCell);
    GroupsSkip(subs, 0, |subs|, 4, 4, Final([CenterWrite(d)], 4, 4, EmptyCell));
  }

  /** Outside the middle block, block `s` shows the first eight actions of
      sub-goal `s` at their offsets, and stays empty where there is no such
      action or no such sub-goal. Sub-goals are assigned blocks row by row,
      not by where their own cell sits around the centre. */
  lemma OuterBlockShowsActions(d: Detail, s: nat, j: nat)
    requires s < 8 && s != 4 && j < 8
    ensures Final(Writes(d), ActionSpot(s, j).0, ActionSpot(s, j).1, EmptyCell) ==
      if s < |d.subGoals| && j < |d.subGoals[s].actions|
      then Cell(Action, ActionContent(d.subGoals[s].actions[j]), Some(d.subGoals[s].actions[j].id))
      else EmptyCell
  {
    var subs := d.subGoals;
    var (r, c) := ActionSpot(s, j);
    SpotInBlock(s, j);
    forall i | 0 <= i < |subs| && i < 8 && i != s
      ensures Untouched(i, r, c)
    {
      OnlyOwnBlock(i, r, c);
    }
    OffCentre(d, r, c);
    if s < |subs| {
      GroupsSkip(subs, s + 1, |subs|, r, c, EmptyCell);
      GroupsStep(subs, s, r, c, EmptyCell);
      GroupsSkip(subs, 0, s, r, c, EmptyCell);
      var sg := subs[s];
      SlotsInMiddle(s);
      FinalConcat([SubGoalWrite(s, sg)], ActionWrites(s, sg.actions, |sg.actions|), r, c, EmptyCell);
      FinalSnoc([], SubGoalWrite(s, sg), EmptyCell);
      ActionsAt(s, sg.actions, |sg.actions|, j, EmptyCell);
      SkipOnlyMiddle(s, j);
    } else {
      GroupsSkip(subs, 0, |subs|, r, c, EmptyCell);
    }
  }

  /** The ninth block, and the centre cell of every outer block, stay empty. */
  lemma UnusedCellsEmpty(d: Detail, r: nat, c: nat)
    requires r < 9 && c < 9
    requires Block((r, c)) == 8 || (r % 3 == 1 && c % 3 == 1 && (r, c) != (4, 4))
    ensures Final(Writes(d), r, c, EmptyCell) == EmptyCell
  {
    var subs := d.subGoals;
    forall i | 0 <= i < |subs| && i < 8
      ensures Untouched(i, r, c)
    {
      UnusedUntouched(i, r, c);
    }
    OffCentre(d, r, c);
    GroupsSkip(subs, 0, |subs|, r, c, EmptyCell);
  }

  lemma UnusedUntouched(i: nat, r: nat, c: nat)
    requires i < 8 && r < 9 && c < 9
    requires Block((r, c)) == 8 || (r % 3 == 1 && c % 3 == 1 && (r, c) != (4, 4))
    ensures Untouched(i, r, c)
  {
    SlotsInMiddle(i);
    forall j | 0 <= j < 8
      ensures ActionSpot(i, j) != (r, c)
    {
      SpotInBlock(i, j);
      if i == 4 {
        MiddleSpots(j);
        SlotsInMiddle(j);
      }
    }
  }

  /** Sub-goal `i`'s group, away from the middle block's own actions,
      leaves its title on its slot. */
  lemma OwnSlot(i: nat, sg: SubGoalView, d: Cell)
    requires i < 8 && i != 4
    ensures Final(GroupWrites(i, sg), SubGoalSlots[i].0, SubGoalSlots[i].1, d) == SubGoalWrite(i, sg).cell
  {
    var (r, c) := SubGoalSlots[i];
    SlotsInMiddle(i);
    forall j | 0 <= j < 8
      ensures ActionSpot(i, j) != (r, c)
    {
      SpotInBlock(i, j);
    }
    FinalConcat([SubGoalWrite(i, sg)], ActionWrites(i, sg.actions, |sg.actions|), r, c, d);
    FinalSnoc([], SubGoalWrite(i, sg), d);
    ActionsUntouched(i, sg.actions, |sg.actions|, r, c, SubGoalWrite(i, sg).cell);
  }

  /** What sub-goal 4's group leaves on slot `k` of the middle block. */
  lemma MiddleGroupAt(sg: SubGoalView, k: nat, d: Cell)
    requires k < 8
    ensures Final(GroupWrites(4, sg), SubGoalSlots[k].0, SubGoalSlots[k].1, d) ==
      if k == 4 then SubGoalWrite(4, sg).cell
      else if k < |sg.actions| then Cell(Action, ActionContent(sg.actions[k]), Some(sg.actions[k].id))
      else d
  {
    var (r, c) := SubGoalSlots[k];
    MiddleSpots(k);
    if k != 4 {
      SlotsDistinct(4, k);
    }
    FinalConcat([SubGoalWrite(4, sg)], ActionWrites(4, sg.actions, |sg.actions|), r, c, d);
    FinalSnoc([], SubGoalWrite(4, sg), d);
    ActionsAt(4, sg.actions, |sg.actions|, k, Final([SubGoalWrite(4, sg)], r, c, d));
    SkipOnlyMiddle(4, k);
  }

  /** Only sub-goal `k` and sub-goal 4 draw on slot `k`. */
  lemma SlotTouchedBy(k: nat, i: nat)
    requires k < 8 && i < 8 && i != k && i != 4
    ensures Untouched(i, SubGoalSlots[k].0, SubGoalSlots[k].1)
  {
    SlotsDistinct(i, k);
    SlotsInMiddle(k);
    forall j | 0 <= j < 8
      ensures ActionSpot(i, j) != SubGoalSlots[k]
    {
      SpotInBlock(i, j);
    }
  }

  /** The title sub-goal `k` leaves on its slot when sub-goal 4's actions
      are not considered: its own title, or nothing. */
  lemma UpToSlot(subs: seq<SubGoalView>, k: nat, n: nat)
    requires k < 8 && k != 4 && n <= |subs| && n <= 4
    ensures Final(SubGoalWrites(subs, n), SubGoalSlots[k].0, SubGoalSlots[k].1, EmptyCell) ==
      if k < n then SubGoalWrite(k, subs[k]).cell else EmptyCell
  {
    var (r, c) := SubGoalSlots[k];
    forall i | 0 <= i < n && i < 8 && i != k
      ensures Untouched(i, r, c)
    {
      SlotTouchedBy(k, i);
    }
    if k < n {
      GroupsSkip(subs, k + 1, n, r, c, EmptyCell);
      GroupsStep(subs, k, r, c, EmptyCell);
      OwnSlot(k, subs[k], Final(SubGoalWrites(subs, k), r, c, EmptyCell));
    } else {
      GroupsSkip(subs, 0, n, r, c, EmptyCell);
    }
  }

  /** The middle block: slot `k` shows sub-goal `k`, except that the actions
      of sub-goal 4, whose block is the middle one, are drawn onto the slots
      too. Whichever of the two is written later wins: action `k` of
      sub-goal 4 for the slots before 4, sub-goal `k` for the slots after
      4, and slot 4 always shows sub-goal 4 (its action 4 is skipped). */
  lemma MiddleBlock(d: Detail, k: nat)
    requires k < 8
    ensures var subs := d.subGoals;
      var n := if |subs| < 8 then |subs| else 8;
      var title := if k < n then Cell(SubGoal, subs[k].title, Some(subs[k].id)) else EmptyCell;
      var action := if 4 < n && k < |subs[4].actions|
        then Some(Cell(Action, ActionContent(subs[4].actions[k]), Some(subs[4].actions[k].id))) else None;
      Final(Writes(d), SubGoalSlots[k].0, SubGoalSlots[k].1, EmptyCell) ==
        if k < 4 then action.GetOr(title)
        else if k == 4 then title
        else if k < n then title
        else action.GetOr(EmptyCell)
  {
    var subs := d.subGoals;
    var (r, c) := SubGoalSlots[k];
    SlotsInMiddle(k);
    OffCentre(d, r, c);
    if 4 < |subs| {
      AfterMiddle(subs, k);
      if !(k > 4 && k < |subs|) {
        MiddleGroupAt(subs[4], k, Final(SubGoalWrites(subs, 4), r, c, EmptyCell));
        if k != 4 {
          UpToSlot(subs, k, 4);
        }
      }
    } else if k != 4 {
      UpToSlot(subs, k, |subs|);
    } else {
      forall i | 0 <= i < |subs| && i < 8
        ensures Untouched(i, r, c)
      {
        SlotTouchedBy(k, i);
      }
      GroupsSkip(subs, 0, |subs|, r, c, EmptyCell);
    }
  }

  /** With a fifth sub-goal, slot `k` ends with sub-goal `k`'s title when
      that is drawn after sub-goal 4, and otherwise with whatever sub-goal
      4's group leaves there. */
  lemma AfterMiddle(subs: seq<SubGoalView>, k: nat)
    requires 4 < |subs| && k < 8
    ensures var (r, c) := SubGoalSlots[k];
      Final(SubGoalWrites(subs, |subs|), r, c, EmptyCell) ==
        if k > 4 && k < |subs| then SubGoalWrite(k, subs[k]).cell
        else Final(GroupWrites(4, subs[4]), r, c, Final(SubGoalWrites(subs, 4), r, c, EmptyCell))
  {
    var (r, c) := SubGoalSlots[k];
    var last := if k > 4 && k < |subs| then k + 1 else 5;
    forall i | last <= i < |subs| && i < 8
      ensures Untouched(i, r, c)
    {
      SlotTouchedBy(k, i);
    }
    GroupsSkip(subs, last, |subs|, r, c, EmptyCell);
    if k > 4 && k < |subs| {
      GroupsStep(subs, k, r, c, EmptyCell);
      OwnSlot(k, subs[k], Final(SubGoalWrites(subs, k), r, c, EmptyCell));
    } else {
      GroupsStep(subs, 4, r, c, EmptyCell);
    }
  }
}
