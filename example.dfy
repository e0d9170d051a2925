/** The routine table of src/main.cpp run through the picker: four skills
    routines, two for position 1 and three for position 2, in that order,
    with the pre-auto handler registered. */
module AutoExample {
  import opened Auto

  /** pre_auto */
  const PreAutoId: FnId := 9

  /** auto_list; routine i is called through function pointer i. */
  function ExampleTable(): seq<Routine> {
    [ Routine(Some(0), PosSkills, "Skills Center Goal"),
      Routine(Some(1), PosSkills, "Skills Side Goal"),
      Routine(Some(2), PosSkills, "Skills Something Else"),
      Routine(Some(3), PosSkills, "Skills Fun"),
      Routine(Some(4), Pos1, "Match P1 Color"),
      Routine(Some(5), Pos1, "Match P1 Neutral"),
      Routine(Some(6), Pos2, "Match P2 Color"),
      Routine(Some(7), Pos2, "Match P2 Neutral"),
      Routine(Some(8), Pos2, "Match P2 Center") ]
  }

  lemma ExampleMatchesSkills()
    ensures Matches(ExampleTable(), PosSkills) == [0, 1, 2, 3]
  {
    var t := ExampleTable();
    MatchesUpToAll(t, PosSkills, 0, 4);
    MatchesUpToNone(t, PosSkills, 4, 9);
  }

  lemma ExampleMatchesPos1()
    ensures Matches(ExampleTable(), Pos1) == [4, 5]
  {
    var t := ExampleTable();
    MatchesUpToNone(t, Pos1, 0, 4);
    MatchesUpToAll(t, Pos1, 4, 6);
    MatchesUpToNone(t, Pos1, 6, 9);
  }

  lemma ExampleMatchesPos2()
    ensures Matches(ExampleTable(), Pos2) == [6, 7, 8]
  {
    var t := ExampleTable();
    MatchesUpToNone(t, Pos2, 0, 6);
    MatchesUpToAll(t, Pos2, 6, 9);
  }

  /** Blue 2 (mode 3) then the second list button selects "Match P2 Neutral". */
  lemma ExampleMode3Slot1()
    ensures NthMatch(ExampleTable(), ModePos(3), 1) == Some(7)
    ensures NthMatch(ExampleTable(), ModePos(3), 3) == None
  {
    ExampleMatchesPos2();
  }

  /** The list shown for position 2 with the pre-auto handler registered. */
  lemma ExampleLayoutPos2()
    ensures ListLayout(ExampleTable(), Pos2, true) ==
            [ Present("Match P2 Color", ListInactive),
              Present("Match P2 Neutral", ListInactive),
              Present("Match P2 Center", ListInactive),
              Absent, Absent, Absent, Absent,
              PreAutoButton() ]
  {
    ExampleMatchesPos2();
  }

  /** The session of initialize(): auto_picker, then auto_pre_auto. */
  method Session(t: seq<Routine>) returns (picker: Picker)
    ensures picker.Valid() && picker.Shown() && fresh(picker.listBtn) && fresh(picker.posBtn)
    ensures picker.table == t && picker.activeAuto == -1
    ensures picker.activePos == PosSkills && picker.activeColor == Skills
    ensures picker.preAuto == Some(PreAutoId)
    ensures forall i :: 0 <= i < ListSize ==> picker.listBtn[i] == Absent
    ensures picker.calls == []
  {
    picker := new Picker();
    picker.Start(t);
    picker.SetPreAuto(Some(PreAutoId));
  }

  /** In that session, position button `mode` and then routine button `slot`
      select the slot-th routine for the mode's position. */
  method SelectRoutine(t: seq<Routine>, mode: int, slot: int) returns (picker: Picker)
    requires 0 <= mode < PositionCount && 0 <= slot < ListSize - 1
    requires slot < |Matches(t, ModePos(mode))|
    ensures picker.Valid() && picker.Shown() && fresh(picker.listBtn) && fresh(picker.posBtn)
    ensures picker.table == t && picker.preAuto == Some(PreAutoId)
    ensures picker.activeAuto == Matches(t, ModePos(mode))[slot]
    ensures picker.activePos == ModePos(mode) && picker.activeColor == ModeColor(mode)
    ensures picker.listBtn[ListSize - 1] == PreAutoButton()
    ensures picker.calls == []
  {
    picker := Session(t);
    picker.PositionPressed(mode);
    ListLayoutShape(t, ModePos(mode), true, slot);
    ListLayoutShape(t, ModePos(mode), true, ListSize - 1);
    picker.ListPressed(slot);
  }

  /** A position press keeps the earlier choice: after selecting a routine
      for one position, pressing another position button leaves it
      selected, and auto_run then calls that routine for the first position
      with the second mode's colour and position as its arguments. */
  method KeepsChoice(t: seq<Routine>, first: int, slot: int, second: int)
    returns (active: int, pos: Pos, ghost calls: seq<Call>)
    requires 0 <= first < PositionCount && 0 <= second < PositionCount && 0 <= slot < ListSize - 1
    requires slot < |Matches(t, ModePos(first))|
    ensures active == Matches(t, ModePos(first))[slot] && pos == ModePos(second)
    ensures 0 <= active < |t| && t[active].position == ModePos(first)
    ensures calls == if t[active].fn.Some?
                     then [RoutineCall(t[active].fn.value, ModeColor(second), ModePos(second))]
                     else []
  {
    var picker := SelectRoutine(t, first, slot);
    picker.PositionPressed(second);
    active := picker.GetActive();
    pos := picker.GetPos();
    picker.Run();
    calls := picker.calls;
  }

  /** Blue 2, the second list button, the pre-auto button, then auto_run:
      the handler gets the position code as its colour, and "Match P2
      Neutral" (index 7) runs with (Blue, position 2). */
  method Mode3Scenario() returns (active: int, color: Color, pos: Pos, ghost calls: seq<Call>)
    ensures active == 7 && color == Blue && pos == Pos2
    ensures calls == [Call(PreAutoFn(PreAutoId), 1, -1), Call(AutoFn(7), -1, 1)]
  {
    ExampleMatchesPos2();
    var picker := SelectRoutine(ExampleTable(), 3, 1);
    picker.ListPressed(ListSize - 1);
    assert picker.calls == [Call(PreAutoFn(PreAutoId), 1, -1)];
    assert picker.table[7].fn == Some(7);
    picker.Run();
    assert picker.calls[1] == Call(AutoFn(7), -1, 1);
    active := picker.GetActive();
    color := picker.GetColor();
    pos := picker.GetPos();
    calls := picker.calls;
  }

  /** Blue 2 / "Match P2 Neutral", then Red 1: index 7, a position-2
      routine, stays selected at position 1. */
  method StaleSelectionScenario() returns (active: int, pos: Pos, ghost calls: seq<Call>)
    ensures active == 7 && pos == Pos1
    ensures ExampleTable()[active].position != pos
    ensures calls == [Call(AutoFn(7), 1, 0)]
  {
    ExampleMatchesPos2();
    active, pos, calls := KeepsChoice(ExampleTable(), 3, 1, 0);
  }
}
