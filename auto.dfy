/** The autonomous-routine picker of src/auto.c: five starting-position buttons,
    a list of up to eight program buttons rebuilt on every position press, the
    resolved selection (mode, position, colour, routine index) and the
    optional pre-auto handler.  The screen itself is out of scope: a button is
    only "absent" or "present with a label and a style". */
module Auto {

  datatype Option<T> = None | Some(value: T)

  /** auto_color_t; its C enumerator values are given by ColorCode. */
  datatype Color = Red | Skills | Blue

  /** auto_pos_t; its C enumerator values are given by PosCode. */
  datatype Pos = Pos1 | Pos2 | PosSkills

  /** Identity of a C function pointer (auto_func_t); a NULL pointer is None. */
  type FnId = nat

  /** auto_routine_t: one entry of the routine table. */
  datatype Routine = Routine(fn: Option<FnId>, position: Pos, name: string)

  /** The styles the picker puts on its buttons. */
  datatype Style =
    | RedInactive | RedActive
    | BlueInactive | BlueActive
    | GoldInactive | GoldActive
    | ListInactive | ListActive
    | PreAutoInactive | PreAutoActive

  /** A slot of list_btn or btn_pos: NULL, or a button with its label and style. */
  datatype Button = Absent | Present(text: string, style: Style)

  /** Whom an invocation went to. */
  datatype Callee = AutoFn(id: FnId) | PreAutoFn(id: FnId)

  /** One call through a function pointer, with the integer values of its two
      C arguments in prototype order (color, position). */
  datatype Call = Call(callee: Callee, colorArg: int, posArg: int)

  /** The printf diagnostics. */
  datatype Diag = TooManyPrograms | InvalidFunction(name: string)

  /** LIST_SIZE */
  const ListSize: nat := 8
  /** Number of starting-position buttons (4 match, 1 skills). */
  const PositionCount: nat := 5
  const PreAutoLabel: string := "Pre-Auto Routine"

  predicate IsActive(s: Style) {
    s.RedActive? || s.BlueActive? || s.GoldActive? || s.ListActive? || s.PreAutoActive?
  }

  function ColorCode(c: Color): (v: int)
    ensures -1 <= v <= 1
    ensures v == 0 <==> c == Skills
    ensures v == 1 <==> c == Red
  {
    match c
    case Red => 1
    case Skills => 0
    case Blue => -1
  }

  function PosCode(p: Pos): (v: int)
    ensures 0 <= v <= 2
    ensures v == 2 <==> p == PosSkills
    ensures v == 0 <==> p == Pos1
  {
    match p
    case Pos1 => 0
    case Pos2 => 1
    case PosSkills => 2
  }

  /** active_pos_mode: the starting position of each mode. */
  function ModePos(m: int): (p: Pos)
    requires 0 <= m < PositionCount
    ensures p == PosSkills <==> m == 4
    ensures p == Pos1 <==> m == 0 || m == 2
  {
    [Pos1, Pos2, Pos1, Pos2, PosSkills][m]
  }

  /** active_color_mode: the alliance colour of each mode. */
  function ModeColor(m: int): (c: Color)
    requires 0 <= m < PositionCount
    ensures c == Skills <==> m == 4
    ensures c == Red <==> m < 2
  {
    [Red, Red, Blue, Blue, Skills][m]
  }

  /** btn_label: each label names the colour of its mode and, for a match
      mode, ends in the digit of its position. */
  function PositionLabel(i: int): (text: string)
    requires 0 <= i < PositionCount
    ensures 5 <= |text|
    ensures ModeColor(i) == Red ==> text[..4] == "Red "
    ensures ModeColor(i) == Blue ==> text[..5] == "Blue "
    ensures ModeColor(i) == Skills <==> text == "Skills"
    ensures ModePos(i) == Pos1 ==> text[|text| - 1] == '1'
    ensures ModePos(i) == Pos2 ==> text[|text| - 1] == '2'
  {
    ["Red 1", "Red 2", "Blue 1", "Blue 2", "Skills"][i]
  }

  /** btn_styles: the inactive (column 0) or active (column 1) style of
      position button i; its colour is that of mode i. */
  function PositionStyle(i: int, active: bool): (s: Style)
    requires 0 <= i < PositionCount
    ensures IsActive(s) <==> active
    ensures (s == RedInactive || s == RedActive) <==> ModeColor(i) == Red
    ensures (s == BlueInactive || s == BlueActive) <==> ModeColor(i) == Blue
    ensures (s == GoldInactive || s == GoldActive) <==> ModeColor(i) == Skills
  {
    if i < 2 then (if active then RedActive else RedInactive)
    else if i < 4 then (if active then BlueActive else BlueInactive)
    else (if active then GoldActive else GoldInactive)
  }

  /** The button auto_picker creates for position i. */
  function PositionButton(i: int): (b: Button)
    requires 0 <= i < PositionCount
    ensures b.Present? && b.text == PositionLabel(i) && !IsActive(b.style)
  {
    Present(PositionLabel(i), PositionStyle(i, false))
  }

  /** The button shown for the pre-auto routine in the last list slot. */
  function PreAutoButton(): (b: Button)
    ensures b.Present? && b.text == PreAutoLabel && !IsActive(b.style)
    ensures b.style != ListInactive && b.style != ListActive
  {
    Present(PreAutoLabel, PreAutoInactive)
  }

  /** The invocation function(active_color, active_pos) made by auto_run. */
  function RoutineCall(f: FnId, color: Color, pos: Pos): (c: Call)
    ensures c.callee == AutoFn(f)
    ensures c.colorArg == ColorCode(color) && c.posArg == PosCode(pos)
  {
    Call(AutoFn(f), ColorCode(color), PosCode(pos))
  }

  /** The invocation local_pre_auto(active_pos, active_color) made by a press
      on the pre-auto slot: the position lands in the colour parameter and the
      colour in the position parameter. */
  function PreAutoCall(h: FnId, pos: Pos, color: Color): (c: Call)
    ensures c.callee == PreAutoFn(h)
    ensures c.colorArg == RoutineCall(h, color, pos).posArg
    ensures c.posArg == RoutineCall(h, color, pos).colorArg
  {
    Call(PreAutoFn(h), PosCode(pos), ColorCode(color))
  }

  /** Table indices below n whose routine is for position p, in table order. */
  function MatchesUpTo(t: seq<Routine>, p: Pos, n: nat): (idx: seq<nat>)
    requires n <= |t|
    ensures |idx| <= n
    ensures forall k :: 0 <= k < |idx| ==> idx[k] < n && t[idx[k]].position == p
    decreases n
  {
    if n == 0 then []
    else MatchesUpTo(t, p, n - 1) + (if t[n - 1].position == p then [n - 1] else [])
  }

  /** All table indices whose routine is for position p, in table order. */
  function Matches(t: seq<Routine>, p: Pos): (idx: seq<nat>)
    ensures forall k :: 0 <= k < |idx| ==> idx[k] < |t| && t[idx[k]].position == p
    ensures forall a, b :: 0 <= a < b < |idx| ==> idx[a] < idx[b]
  {
    MatchesUpToIncreasing(t, p, |t|);
    MatchesUpTo(t, p, |t|)
  }

  /** The names the rebuild loop collects (valid_auto_names), in table order. */
  function NamesUpTo(t: seq<Routine>, p: Pos, n: nat): (names: seq<string>)
    requires n <= |t|
    ensures |names| == |MatchesUpTo(t, p, n)|
    ensures forall k :: 0 <= k < |names| ==> names[k] == t[MatchesUpTo(t, p, n)[k]].name
    decreases n
  {
    if n == 0 then []
    else NamesUpTo(t, p, n - 1) + (if t[n - 1].position == p then [t[n - 1].name] else [])
  }

  /** The table index of the n-th (0-based) routine for position p, if any. */
  function NthMatch(t: seq<Routine>, p: Pos, n: int): (r: Option<nat>)
    ensures r.Some? ==> r.value < |t| && t[r.value].position == p
    ensures r.None? <==> n < 0 || |Matches(t, p)| <= n
  {
    if 0 <= n < |Matches(t, p)| then Some(Matches(t, p)[n]) else None
  }

  /** How many routine buttons the rebuild creates for a given number of
      matching routines, after the two truncation checks. */
  function VisibleCount(matches: nat, preAuto: bool): (k: nat)
    ensures k <= ListSize && k <= matches
    ensures matches < ListSize ==> k == matches
    ensures matches == ListSize ==> k == if preAuto then ListSize - 1 else ListSize
    ensures matches > ListSize ==> k == ListSize
  {
    if matches > ListSize then ListSize
    else if preAuto && matches > ListSize - 1 then ListSize - 1
    else matches
  }

  /** The list slots as a position press leaves them: the first k matching
      names (k from VisibleCount), then the pre-auto button in the last slot
      when a handler is registered, and NULL everywhere else. */
  function ListLayout(t: seq<Routine>, p: Pos, preAuto: bool): (slots: seq<Button>)
    ensures |slots| == ListSize
    ensures preAuto ==> slots[ListSize - 1] == PreAutoButton()
    ensures forall i :: 0 <= i < ListSize && slots[i].Present? && !(preAuto && i == ListSize - 1) ==>
              slots[i].style == ListInactive
  {
    var names := NamesUpTo(t, p, |t|);
    var k := VisibleCount(|names|, preAuto);
    seq(ListSize, i requires 0 <= i < ListSize =>
      if preAuto && i == ListSize - 1 then PreAutoButton()
      else if i < k then Present(names[i], ListInactive)
      else Absent)
  }

  /** list_max: the slots a list press restyles. */
  function ListMax(preAuto: bool): (n: nat)
    ensures ListSize - 1 <= n <= ListSize
    ensures preAuto <==> n < ListSize
  {
    if preAuto then ListSize - 1 else ListSize
  }

  // ---------------------------------------------------------------------
  // Lemmas about the specification functions

  /** Every matching index below n is collected. */
  lemma {:induction false} MatchesUpToComplete(t: seq<Routine>, p: Pos, n: nat, j: nat)
    requires j < n <= |t| && t[j].position == p
    ensures j in MatchesUpTo(t, p, n)
  {
    if j < n - 1 {
      MatchesUpToComplete(t, p, n - 1, j);
    }
  }

  /** The collected indices are in strictly increasing (table) order. */
  lemma {:induction false} MatchesUpToIncreasing(t: seq<Routine>, p: Pos, n: nat)
    requires n <= |t|
    ensures forall a, b :: 0 <= a < b < |MatchesUpTo(t, p, n)| ==> MatchesUpTo(t, p, n)[a] < MatchesUpTo(t, p, n)[b]
  {
    if n > 0 {
      MatchesUpToIncreasing(t, p, n - 1);
    }
  }

  /** Scanning further only appends. */
  lemma {:induction false} MatchesUpToPrefix(t: seq<Routine>, p: Pos, i: nat, n: nat)
    requires i <= n <= |t|
    ensures MatchesUpTo(t, p, i) <= MatchesUpTo(t, p, n)
    decreases n - i
  {
    if i < n {
      MatchesUpToPrefix(t, p, i, n - 1);
    }
  }

  /** A stretch of entries for other positions adds nothing. */
  lemma {:induction false} MatchesUpToNone(t: seq<Routine>, p: Pos, i: nat, n: nat)
    requires i <= n <= |t|
    requires forall j :: i <= j < n ==> t[j].position != p
    ensures MatchesUpTo(t, p, n) == MatchesUpTo(t, p, i)
    decreases n - i
  {
    if i < n {
      MatchesUpToNone(t, p, i, n - 1);
    }
  }

  /** A stretch of entries all for p adds exactly their indices. */
  lemma {:induction false} MatchesUpToAll(t: seq<Routine>, p: Pos, i: nat, n: nat)
    requires i <= n <= |t|
    requires forall j :: i <= j < n ==> t[j].position == p
    ensures MatchesUpTo(t, p, n) == MatchesUpTo(t, p, i) + seq(n - i, k => i + k)
    decreases n - i
  {
    if i < n {
      MatchesUpToAll(t, p, i, n - 1);
      assert seq(n - i, k => i + k) == seq(n - 1 - i, k => i + k) + [n - 1];
    }
  }

  /** The n-th match is exactly the entry for p that has n matching entries
      before it. */
  lemma NthMatchIff(t: seq<Routine>, p: Pos, n: nat, r: nat)
    ensures NthMatch(t, p, n) == Some(r) <==>
            r < |t| && t[r].position == p && |MatchesUpTo(t, p, r)| == n
  {
    if r < |t| && t[r].position == p {
      MatchesUpToPrefix(t, p, r + 1, |t|);
      MatchesUpToIncreasing(t, p, |t|);
      var pre := MatchesUpTo(t, p, r);
      assert MatchesUpTo(t, p, r + 1) == pre + [r];
      assert Matches(t, p)[|pre|] == r;
    }
  }

  /** The rebuilt list: which slots are populated and with what. */
  lemma ListLayoutShape(t: seq<Routine>, p: Pos, preAuto: bool, i: nat)
    requires i < ListSize
    ensures ListLayout(t, p, preAuto)[i].Present? <==>
              i < VisibleCount(|Matches(t, p)|, preAuto) || (preAuto && i == ListSize - 1)
    ensures i < VisibleCount(|Matches(t, p)|, preAuto) && !(preAuto && i == ListSize - 1) ==>
              ListLayout(t, p, preAuto)[i] == Present(t[Matches(t, p)[i]].name, ListInactive)
    ensures preAuto && i == ListSize - 1 ==> ListLayout(t, p, preAuto)[i] == PreAutoButton()
  {
    var names := NamesUpTo(t, p, |t|);
    var k := VisibleCount(|names|, preAuto);
    assert |names| == |Matches(t, p)|;
    assert ListLayout(t, p, preAuto)[i] ==
           if preAuto && i == ListSize - 1 then PreAutoButton()
           else if i < k then Present(names[i], ListInactive)
           else Absent;
  }

  /** With a handler and more than eight matches, eight routine buttons are
      counted but the eighth is replaced by the pre-auto button. */
  lemma PreAutoOverwritesEighth(t: seq<Routine>, p: Pos)
    requires |Matches(t, p)| > ListSize
    ensures VisibleCount(|Matches(t, p)|, true) == ListSize
    ensures ListLayout(t, p, true)[ListSize - 1] == PreAutoButton()
    ensures ListLayout(t, p, true)[ListSize - 1] != Present(t[Matches(t, p)[ListSize - 1]].name, ListInactive)
  {
  }

  /** Round trip: pressing a routine slot of the rebuilt list resolves to the
      table entry whose name labels that slot, and that entry is for p. */
  lemma {:induction false} LayoutResolves(t: seq<Routine>, p: Pos, preAuto: bool, i: nat)
    requires i < ListSize && ListLayout(t, p, preAuto)[i].Present?
    requires !(preAuto && i == ListSize - 1)
    ensures NthMatch(t, p, i).Some?
    ensures t[NthMatch(t, p, i).value].position == p
    ensures t[NthMatch(t, p, i).value].name == ListLayout(t, p, preAuto)[i].text
  {
    ListLayoutShape(t, p, preAuto, i);
  }

  /** The (colour, position) pair determines the mode. */
  lemma ModeDetermined(a: int, b: int)
    requires 0 <= a < PositionCount && 0 <= b < PositionCount
    ensures ModePos(a) == ModePos(b) && ModeColor(a) == ModeColor(b) <==> a == b
  {
  }

  /** What the pre-auto handler reads from its parameters: in every mode its
      colour parameter carries the position code and its position parameter
      the colour code; in skills mode it sees colour code 2, which no colour
      enumerator has, and position code 0 (POS_1). */
  lemma PreAutoArgumentsSwapped(h: FnId, m: int)
    requires 0 <= m < PositionCount
    ensures PreAutoCall(h, ModePos(m), ModeColor(m)).colorArg == PosCode(ModePos(m))
    ensures PreAutoCall(h, ModePos(m), ModeColor(m)).posArg == ColorCode(ModeColor(m))
    ensures (PreAutoCall(h, ModePos(m), ModeColor(m)) !=
             Call(PreAutoFn(h), ColorCode(ModeColor(m)), PosCode(ModePos(m)))) <==> m != 1
    ensures m == 4 ==> PreAutoCall(h, ModePos(m), ModeColor(m)) == Call(PreAutoFn(h), 2, 0)
  {
  }

  // ---------------------------------------------------------------------
  // The picker state (the module-level statics of src/auto.c)

  class Picker {
    var activeMode: int
    var activePos: Pos
    var activeColor: Color
    /** local_auto_list with local_auto_length as its length. */
    var table: seq<Routine>
    var activeAuto: int
    var preAuto: Option<FnId>
    /** list_btn[LIST_SIZE] */
    const listBtn: array<Button>
    /** btn_pos[5] */
    const posBtn: array<Button>
    /** Every call made through a function pointer, in order. */
    ghost var calls: seq<Call>
    /** Every diagnostic printed, in order. */
    ghost var log: seq<Diag>

    ghost predicate Valid()
      reads this
    {
      listBtn.Length == ListSize && posBtn.Length == PositionCount && listBtn != posBtn
    }

    /** The position buttons are on screen (the only time they can be pressed). */
    ghost predicate Shown()
      reads this, posBtn
      requires Valid()
    {
      forall i :: 0 <= i < PositionCount ==> posBtn[i].Present?
    }

    /** The statics before any call: every int zero, position and colour
        SKILLS, no table, no handler, no buttons. */
    constructor ()
      ensures Valid() && fresh(listBtn) && fresh(posBtn)
      ensures activeMode == 0 && activePos == PosSkills && activeColor == Skills
      ensures table == [] && activeAuto == 0 && preAuto == None
      ensures forall i :: 0 <= i < ListSize ==> listBtn[i] == Absent
      ensures forall i :: 0 <= i < PositionCount ==> posBtn[i] == Absent
      ensures calls == [] && log == []
    {
      activeMode := 0;
      activePos := PosSkills;
      activeColor := Skills;
      table := [];
      activeAuto := 0;
      preAuto := None;
      listBtn := new Button[ListSize](_ => Absent);
      posBtn := new Button[PositionCount](_ => Absent);
      calls := [];
      log := [];
    }

    /** auto_picker: store the table, create the five position buttons in
        their inactive style, and clear the selection. */
    method Start(list: seq<Routine>)
      requires Valid()
      modifies this`table, this`activeAuto, posBtn
      ensures Valid() && table == list && activeAuto == -1
      ensures forall i :: 0 <= i < PositionCount ==> posBtn[i] == PositionButton(i)
      ensures Shown()
    {
      table := list;
      for i := 0 to PositionCount
        modifies posBtn
        invariant forall k :: 0 <= k < i ==> posBtn[k] == PositionButton(k)
      {
        posBtn[i] := PositionButton(i);
      }
      activeAuto := -1;
    }

    /** auto_pre_auto: register (or, with None, unregister) the handler. */
    method SetPreAuto(h: Option<FnId>)
      requires Valid()
      modifies this`preAuto
      ensures Valid() && preAuto == h
    {
      preAuto := h;
    }

    /** btn_pos_cb for position button m. */
    method PositionPressed(m: int)
      requires Valid() && Shown() && 0 <= m < PositionCount
      modifies this`activeMode, this`activePos, this`activeColor, this`log, listBtn, posBtn
      ensures Valid() && Shown()
      ensures activeMode == m && activePos == ModePos(m) && activeColor == ModeColor(m)
      ensures forall i :: 0 <= i < PositionCount ==>
                posBtn[i] == old(posBtn[i]).(style := PositionStyle(i, i == m))
      ensures forall i :: 0 <= i < PositionCount ==> (IsActive(posBtn[i].style) <==> i == m)
      ensures listBtn[..] == ListLayout(table, activePos, preAuto.Some?)
      ensures log == old(log) +
                (if VisibleCount(|Matches(table, activePos)|, preAuto.Some?) < |Matches(table, activePos)|
                 then [TooManyPrograms] else [])
    {
      activeMode := m;
      StylePositions(m);
      ClearList();

      activePos := ModePos(activeMode);
      activeColor := ModeColor(activeMode);

      var validAutos, names := CollectNames(activePos);

      if validAutos > ListSize {
        log := log + [TooManyPrograms];
        validAutos := ListSize;
      } else if preAuto.Some? && validAutos > ListSize - 1 {
        log := log + [TooManyPrograms];
        validAutos := ListSize - 1;
      }

      ShowList(names, validAutos);
      assert validAutos == VisibleCount(|Matches(table, activePos)|, preAuto.Some?);
      forall i | 0 <= i < ListSize
        ensures listBtn[i] == ListLayout(table, activePos, preAuto.Some?)[i]
      {
        ListLayoutShape(table, activePos, preAuto.Some?, i);
      }
      assert listBtn[..] == ListLayout(table, activePos, preAuto.Some?);
    }

    /** Put the active style on position button m and the inactive style on
        the other four. */
    method StylePositions(m: int)
      requires Valid() && Shown() && 0 <= m < PositionCount
      modifies posBtn
      ensures Valid() && Shown()
      ensures forall i :: 0 <= i < PositionCount ==>
                posBtn[i] == old(posBtn[i]).(style := PositionStyle(i, i == m))
    {
      for i := 0 to PositionCount
        invariant forall k :: 0 <= k < i ==> posBtn[k] == old(posBtn[k]).(style := PositionStyle(k, k == m))
        invariant forall k :: i <= k < PositionCount ==> posBtn[k] == old(posBtn[k])
      {
        posBtn[i] := posBtn[i].(style := PositionStyle(i, i == m));
      }
    }

    /** Create the first count routine buttons with the given names and,
        when a handler is registered, the pre-auto button in the last slot. */
    method ShowList(names: seq<string>, count: nat)
      requires Valid() && count <= |names| && count <= ListSize
      requires forall i :: 0 <= i < ListSize ==> listBtn[i] == Absent
      modifies listBtn
      ensures Valid()
      ensures forall i :: 0 <= i < ListSize ==>
                listBtn[i] == if preAuto.Some? && i == ListSize - 1 then PreAutoButton()
                              else if i < count then Present(names[i], ListInactive)
                              else Absent
    {
      for i := 0 to count
        invariant forall k :: 0 <= k < i ==> listBtn[k] == Present(names[k], ListInactive)
        invariant forall k :: i <= k < ListSize ==> listBtn[k] == Absent
      {
        listBtn[i] := Present(names[i], ListInactive);
      }
      if preAuto.Some? {
        listBtn[ListSize - 1] := PreAutoButton();
      }
    }

    /** Delete every list button (the loop shared by btn_pos_cb and auto_clean). */
    method ClearList()
      requires Valid()
      modifies listBtn
      ensures Valid()
      ensures forall i :: 0 <= i < ListSize ==> listBtn[i] == Absent
    {
      for i := 0 to ListSize
        invariant forall k :: 0 <= k < i ==> listBtn[k] == Absent
      {
        listBtn[i] := Absent;
      }
    }

    /** The counting loop of btn_pos_cb: how many routines are for position
        p, and their names (valid_auto_names) in table order. */
    method CollectNames(p: Pos) returns (count: nat, names: seq<string>)
      ensures count == |names| == |Matches(table, p)|
      ensures forall k :: 0 <= k < count ==> names[k] == table[Matches(table, p)[k]].name
    {
      count, names := 0, [];
      for i := 0 to |table|
        invariant names == NamesUpTo(table, p, i)
        invariant count == |names|
      {
        if table[i].position == p {
          names := names + [table[i].name];
          count := count + 1;
        }
      }
    }

    /** btn_list_cb for list slot idx.  idx == ListSize is a press on a
        button that is on screen but in no slot of list_btn (the routine
        button that the pre-auto button replaced in slot 7): the pointer
        search then ends at LIST_SIZE, and the callback goes on with that
        index. */
    method ListPressed(idx: int)
      requires Valid() && 0 <= idx <= ListSize
      requires idx < ListSize ==> listBtn[idx].Present?
      modifies this`activeAuto, this`calls, listBtn
      ensures Valid()
      // the pre-auto slot: call the handler once, select nothing
      ensures preAuto.Some? && idx == ListSize - 1 ==>
                calls == old(calls) + [PreAutoCall(preAuto.value, activePos, activeColor)] &&
                activeAuto == old(activeAuto) &&
                listBtn[..] == old(listBtn[..])[ListSize - 1 := old(listBtn[ListSize - 1]).(style := PreAutoInactive)]
      // any other slot: restyle the list and look the routine up
      ensures !(preAuto.Some? && idx == ListSize - 1) ==>
                calls == old(calls) &&
                activeAuto == (match NthMatch(table, activePos, idx)
                               case Some(r) => r
                               case None => old(activeAuto))
      ensures !(preAuto.Some? && idx == ListSize - 1) ==>
                forall i :: 0 <= i < ListSize ==>
                  listBtn[i] == (if i < ListMax(preAuto.Some?) && old(listBtn[i]).Present?
                                 then old(listBtn[i]).(style := if i == idx then ListActive else ListInactive)
                                 else old(listBtn[i]))
      ensures !(preAuto.Some? && idx == ListSize - 1) ==>
                forall i :: 0 <= i < ListMax(preAuto.Some?) && listBtn[i].Present? ==>
                  (IsActive(listBtn[i].style) <==> i == idx)
    {
      if preAuto.Some? && idx == ListSize - 1 {
        listBtn[ListSize - 1] := listBtn[ListSize - 1].(style := PreAutoActive);
        calls := calls + [PreAutoCall(preAuto.value, activePos, activeColor)];
        listBtn[ListSize - 1] := listBtn[ListSize - 1].(style := PreAutoInactive);
        return;
      }

      var listMax := ListSize;
      if preAuto.Some? {
        listMax := listMax - 1;
      }
      assert listMax == ListMax(preAuto.Some?);

      // Highlight the pressed button, dim the others
      for i := 0 to listMax
        modifies listBtn
        invariant forall k :: 0 <= k < i ==>
                    listBtn[k] == (if old(listBtn[k]).Present?
                                   then old(listBtn[k]).(style := if k == idx then ListActive else ListInactive)
                                   else old(listBtn[k]))
        invariant forall k :: i <= k < ListSize ==> listBtn[k] == old(listBtn[k])
      {
        if listBtn[i].Present? && i == idx {
          listBtn[i] := listBtn[i].(style := ListActive);
        } else if listBtn[i].Present? {
          listBtn[i] := listBtn[i].(style := ListInactive);
        }
      }

      // Find the idx-th routine for the active position
      var validCount := 0;
      var chosen := activeAuto;
      for i := 0 to |table|
        invariant validCount == |MatchesUpTo(table, activePos, i)| <= idx
        invariant chosen == activeAuto
      {
        if table[i].position == activePos {
          if validCount == idx {
            NthMatchIff(table, activePos, idx, i);
            chosen := i;
            break;
          }
          validCount := validCount + 1;
        }
      }
      activeAuto := chosen;
    }

    /** auto_run: call the selected routine, if there is one and its
        pointer is not NULL. */
    method Run()
      requires Valid()
      modifies this`calls, this`log
      ensures Valid()
      ensures activeAuto < 0 || activeAuto >= |table| ==>
                calls == old(calls) && log == old(log)
      ensures 0 <= activeAuto < |table| && table[activeAuto].fn.None? ==>
                calls == old(calls) && log == old(log) + [InvalidFunction(table[activeAuto].name)]
      ensures 0 <= activeAuto < |table| && table[activeAuto].fn.Some? ==>
                calls == old(calls) + [RoutineCall(table[activeAuto].fn.value, activeColor, activePos)] &&
                log == old(log)
    {
      if activeAuto < 0 {
        return;
      }
      if activeAuto >= |table| {
        return;
      }
      var fn := table[activeAuto].fn;
      if fn.Some? {
        calls := calls + [RoutineCall(fn.value, activeColor, activePos)];
      } else {
        log := log + [InvalidFunction(table[activeAuto].name)];
      }
    }

    /** auto_clean: delete every list and position button. */
    method Clean()
      requires Valid()
      modifies listBtn, posBtn
      ensures Valid()
      ensures forall i :: 0 <= i < ListSize ==> listBtn[i] == Absent
      ensures forall i :: 0 <= i < PositionCount ==> posBtn[i] == Absent
    {
      ClearList();
      for i := 0 to PositionCount
        modifies posBtn
        invariant forall k :: 0 <= k < i ==> posBtn[k] == Absent
      {
        posBtn[i] := Absent;
      }
    }

    /** auto_get_color */
    method GetColor() returns (c: Color)
      ensures c == activeColor
    {
      c := activeColor;
    }

    /** auto_get_pos */
    method GetPos() returns (p: Pos)
      ensures p == activePos
    {
      p := activePos;
    }

    /** auto_get_active */
    method GetActive() returns (a: int)
      ensures a == activeAuto
    {
      a := activeAuto;
    }
  }
}
