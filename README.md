# Autonomous-routine picker (PROS V5 auto picker), modelled in Dafny

The picker lets a robot operator choose, before a match, which registered
autonomous routine will run. The operator presses one of five
starting-position buttons (Red 1, Red 2, Blue 1, Blue 2, Skills). That press
fixes the alliance colour and starting position. The picker then rebuilds a
column of up to eight program buttons: one per routine registered for that
position, in table order. Pressing a program button selects a routine by its
index in the table. When a pre-auto handler is registered, the last slot of
the column is a "Pre-Auto Routine" button that calls the handler. The
autonomous phase later calls `auto_run`, which calls the selected routine's
function with the chosen colour and position.

`auto.dfy` (module `Auto`) models `src/auto.c`:

- The data types: colours and positions with their C enumerator values;
  routines; button slots, each absent or present with a label and a style;
  the recorded calls and diagnostics.
- The constant tables of the file.
- The specification functions: the matching routines of a position, their
  names, the n-th match, the truncated count, and the list layout after a
  position press.
- The lemmas about those functions.
- The class `Picker`, holding the file's module-level state: `active_mode`,
  `active_pos`, `active_color`, the routine table (`local_auto_list` and
  `local_auto_length`), `active_auto`, `local_pre_auto`, and the arrays
  `list_btn[8]` and `btn_pos[5]`. Its methods are the two button callbacks
  and the public API. Each call through a function pointer goes into the
  ghost trace `calls`: the callee, then the integer values of the two C
  arguments in prototype order (colour, position). Each `printf`
  diagnostic goes into the ghost log `log`.

`example.dfy` (module `AutoExample`) runs the picker on the routine table of
`src/main.cpp`: four Skills routines, then two for position 1, then three for
position 2, with the pre-auto handler registered, as `initialize()` sets it
up. It also holds two client methods that work for any table:
`SelectRoutine` and `KeepsChoice`.

Parameters model what lies outside the picker:

- A button press arrives as an index: 0..4 for a position button, 0..7 for
  a list slot, and 8 for a list-callback button that is on screen but in no
  slot of `list_btn` (see "Left out").
- Function pointers are `FnId` numbers, and a NULL pointer is `None`.

## Where the code and its design description differ (the model follows the code)

- Pressing a position button does not reset `active_auto`
  (`src/auto.c:167-288`). An earlier choice survives a change of position:
  `KeepsChoice` proves this for every table, and `StaleSelectionScenario`
  shows a position-2 routine still selected after Red 1 is pressed.
- The pre-auto handler is called as `local_pre_auto(active_pos, active_color)`
  (`src/auto.c:109`). The header's prototype is `(color, position)`
  (`include/pal/auto.h:36`). So the handler's colour parameter receives the
  position code, and its position parameter receives the colour code.
  `PreAutoArgumentsSwapped` proves that the result differs from the
  prototype order for every mode except Red 2. For Red 2 the two codes
  happen to coincide. In Skills mode the handler sees colour code 2, which
  no colour enumerator has, and position code 0 (POS_1).
- With a pre-auto handler and more than eight matching routines, the count
  stays at eight. The routine button created in slot 7 is then replaced by
  the pre-auto button (`src/auto.c:225-235`, `:268`). `PreAutoOverwritesEighth`
  proves this.
- `auto_clean` only deletes the buttons. It keeps `active_auto`, the position,
  the colour, the table and the handler. Calling `auto_picker` again is not an
  error: it re-creates the position buttons and clears the selection.
- The colour values come from the header: RED = 1, SKILLS = 0, BLUE = -1. The
  comment at `src/main.cpp:12-13` states other values.
- Static storage starts at zero. So before `auto_picker` runs, `active_mode`
  and `active_auto` are 0 (the constructor), not -1.

## Model

| member | source | states |
|---|---|---|
| `Auto.ColorCode` | include/pal/auto.h:18-23 | the colour enumerators are RED = 1, SKILLS = 0, BLUE = -1 |
| `Auto.PosCode` | include/pal/auto.h:26-31 | the position enumerators are POS_1 = 0, POS_2 = 1, POS_SKILLS = 2 |
| `Auto.ModePos` | src/auto.c:23-30 | mode 4 is the skills position; modes 0 and 2 are position 1; modes 1 and 3 are position 2 |
| `Auto.ModeColor` | src/auto.c:33-40 | mode 4 is the skills colour; modes 0 and 1 are red; modes 2 and 3 are blue |
| `Auto.PositionLabel` | src/auto.c:55-62 | each position label names its mode's colour ("Red ", "Blue ", or exactly "Skills") and a match mode's label ends in its position's digit |
| `Auto.PositionButton` | src/auto.c:337-353 | the button created for position i is present, labelled with its label, and in an inactive style |
| `Auto.PreAutoButton` | src/auto.c:264-284 | the pre-auto button is present, labelled "Pre-Auto Routine", inactive, and styled unlike any routine button |
| `Auto.RoutineCall` | src/auto.c:428-434 | `auto_run` calls the routine's function with the colour code first and the position code second |
| `Auto.PreAutoCall` | src/auto.c:109 | the handler call carries the arguments of a prototype-order call exchanged: the position code first, the colour code second |
| `Auto.ModeDetermined` | src/auto.c:23-40 | two modes with the same position and colour are the same mode |
| `Auto.PositionStyle` | src/auto.c:80-87 | a position button's style is active exactly when requested, and its colour family is that of its mode |
| `Auto.MatchesUpTo` | src/auto.c:145-160 | the collected indices are below the scan bound and each names a routine for the position |
| `Auto.Matches` | src/auto.c:145-160 | every collected index names a table entry for the position, and the indices are strictly increasing |
| `Auto.MatchesUpToIncreasing` | src/auto.c:145-160 | the matching indices are in strictly increasing table order |
| `Auto.MatchesUpToComplete` | src/auto.c:145-160 | every routine for the position below the bound is collected |
| `Auto.MatchesUpToPrefix` | src/auto.c:145-160 | scanning further only appends matches |
| `Auto.MatchesUpToNone` | src/auto.c:215-222 | a stretch of routines for other positions adds no match |
| `Auto.MatchesUpToAll` | src/auto.c:215-222 | a stretch of routines all for the position adds exactly their indices, in order |
| `Auto.NamesUpTo` | src/auto.c:213-222 | the collected names are, one for one and in order, the names of the matching routines |
| `Auto.NthMatchIff` | src/auto.c:139-160 | the lookup for slot n yields r exactly when entry r is for the position and exactly n matching entries precede it |
| `Auto.NthMatch` | src/auto.c:139-160 | a found index is in the table and for the position; nothing is found exactly when n is negative or at most n routines match |
| `Auto.VisibleCount` | src/auto.c:224-235 | at most 8 routine buttons; 7 when a handler is registered and exactly 8 match; 8 when more than 8 match; otherwise all matches |
| `Auto.ListMax` | src/auto.c:117-119 | a list press restyles 7 or 8 slots, and fewer than 8 exactly when a handler is registered |
| `Auto.ListLayout` | src/auto.c:194-285 | a rebuilt list has eight slots; the last is the pre-auto button when a handler is registered; every other present slot is a routine button in the inactive list style |
| `Auto.ListLayoutShape` | src/auto.c:194-285 | after a rebuild, a slot is populated exactly when it is below the truncated count or is the pre-auto slot; routine slots hold the matching names in table order; slot 7 is the pre-auto button when a handler is registered |
| `Auto.PreAutoOverwritesEighth` | src/auto.c:224-268 | with a handler and more than 8 matches, the count stays 8 and slot 7 shows the pre-auto button instead of the eighth routine |
| `Auto.LayoutResolves` | src/auto.c:139-160 | pressing any routine slot of a rebuilt list selects a routine for the position whose name is that slot's label |
| `Auto.PreAutoArgumentsSwapped` | src/auto.c:109 | the handler's colour parameter carries the position code and its position parameter the colour code; the call differs from the prototype order exactly for modes other than Red 2; in Skills mode the handler sees (2, 0) |
| `Auto.Picker.constructor` | src/auto.c:12-20 | the statics start at zero: mode 0, routine 0, position and colour SKILLS, no table, no handler, no buttons |
| `Auto.Picker.Start` | src/auto.c:291-375 | stores the table, creates the five position buttons in their inactive styles, sets the selection to -1, touches nothing else |
| `Auto.Picker.SetPreAuto` | src/auto.c:378-381 | registers or replaces the handler and changes nothing else |
| `Auto.Picker.PositionPressed` | src/auto.c:167-288 | sets the mode and its position and colour; makes exactly the pressed position button active; rebuilds the list to the layout above; warns when it truncates; keeps the selection, the table and the handler |
| `Auto.Picker.StylePositions` | src/auto.c:179-192 | button m gets its active style and the other four their inactive styles |
| `Auto.Picker.ClearList` | src/auto.c:194-204 | all eight list slots become empty |
| `Auto.Picker.CollectNames` | src/auto.c:210-222 | counts the routines for the position and returns their names in table order |
| `Auto.Picker.ShowList` | src/auto.c:241-285 | fills slots below the count with the names, and slot 7 with the pre-auto button when a handler is registered |
| `Auto.Picker.ListPressed` | src/auto.c:91-165 | on the pre-auto slot with a handler: one handler call with (position, colour), selection unchanged; otherwise, among present slots below the restyle limit exactly the pressed one is active (none for the unfound index 8), and the selection becomes the n-th match or stays as it was |
| `Auto.Picker.Run` | src/auto.c:415-439 | an out-of-range selection calls nothing; a NULL function logs an error naming the routine; otherwise exactly one call with (colour, position); the state is unchanged |
| `Auto.Picker.Clean` | src/auto.c:384-412 | every list and position slot becomes empty, and the selection, table and handler are kept |
| `Auto.Picker.GetColor` | src/auto.c:442-445 | returns the current colour |
| `Auto.Picker.GetPos` | src/auto.c:447-450 | returns the current position |
| `Auto.Picker.GetActive` | src/auto.c:452-455 | returns the current selection |
| `AutoExample.ExampleMatchesSkills` | src/main.cpp:80-84 | the skills routines of the example table are entries 0 to 3 |
| `AutoExample.ExampleMatchesPos1` | src/main.cpp:85-87 | the position-1 routines are entries 4 and 5 |
| `AutoExample.ExampleMatchesPos2` | src/main.cpp:88-90 | the position-2 routines are entries 6, 7 and 8 |
| `AutoExample.ExampleMode3Slot1` | src/main.cpp:78-91 | Blue 2 followed by list slot 1 resolves to entry 7; slot 3 resolves to nothing |
| `AutoExample.ExampleLayoutPos2` | src/main.cpp:78-91 | for position 2 with the handler, the list shows the three position-2 names, four empty slots, then the pre-auto button |
| `AutoExample.Session` | src/main.cpp:100-113 | after `auto_picker` and `auto_pre_auto` the picker is on screen with no selection, empty list and the handler registered |
| `AutoExample.SelectRoutine` | src/auto.c:139-160 | for any table, a position press and then a routine slot press select the slot-th routine for that position |
| `AutoExample.KeepsChoice` | src/auto.c:167-288 | for any table, a later position press keeps the earlier selection, which is a routine for the earlier position; `auto_run` then calls it with the later mode's colour and position |
| `AutoExample.Mode3Scenario` | src/main.cpp:150-154 | on the example table, selecting entry 7 at Blue 2 and running it calls routine 7 with (BLUE, POS_2); the recorded trace is exactly the handler call with (1, -1) and then routine 7 with (-1, 1) |
| `AutoExample.StaleSelectionScenario` | src/main.cpp:78-91 | on the example table, entry 7 (a position-2 routine) stays selected after Red 1 is pressed, and `auto_run` calls it with (RED, POS_1) |

## Left out

- All drawing through the LVGL graphics library: button, label and image creation, sizes, alignment, and the construction of the style structs (`src/auto.c:238-239, 245-261, 297-370`). A slot is modelled only as absent, or present with a label and a style tag.
- The field image (`fieldimg`) that `auto_picker` creates and `auto_clean` deletes: it is pure drawing.
- Deleting a button object (`lv_obj_del`) is modelled as emptying its slot. Object lifetime is not modelled, so the routine button that the pre-auto button replaces in slot 7 (more than eight matches) is not kept as an object; only a press on it is modelled, as list index 8.
- The search that turns a button pointer into an index (`src/auto.c:94-101, 170-177`): the index is an input. In `btn_pos_cb` a pointer that is not found gives index 5, and reading the mode tables at index 5 is undefined behaviour; `Auto.Picker.PositionPressed` excludes that case. In `btn_list_cb` an unfound pointer gives index 8, which is well defined: the callback dims every present slot below `list_max` and selects the ninth match, if any. That press can happen through the routine button the pre-auto button replaced in slot 7, which stays on screen, even after `auto_clean`. `Auto.Picker.ListPressed` models it as index 8.
- `Auto.Picker.PositionPressed` requires all five position buttons to be on screen, and `Auto.Picker.ListPressed` requires a pressed slot 0..7 to be present. The graphics library only delivers a press on an existing button.
- `Auto.Matches` states soundness and order only; that it collects every matching entry is the separate lemma `Auto.MatchesUpToComplete`, because the clause as a quantifier over table indices is too costly on literal tables.
- `Auto.Picker.CollectNames`: with more than eight matches, the C code writes `valid_auto_names[valid_autos]` past the end of its eight-entry array before it truncates (`src/auto.c:219`). That is undefined behaviour. The model keeps every name in an unbounded sequence and does not capture the overflow.
- `Auto.Picker.ListPressed` records the pre-auto button's final inactive style only. The active style it shows while the handler runs is not recorded.
- `printf` output is modelled as the ghost log `log`. Its text is not modelled.
- What the routines and the pre-auto handler do, including the delays in `src/main.cpp:16-68`, is outside the picker. Only the call itself is recorded.
- The competition-phase callbacks (`src/main.cpp:115-176`) and the cross-task timing between the selection screen and the autonomous task belong to the host.
- The routine table is stored by pointer in C. The model keeps the table as a value, so the caller's array aliasing it is not modelled; the C array is `const`.
- C integer widths are not modelled. `int` counters compared with `size_t` lengths behave as unbounded integers; the table sizes involved are tiny.
