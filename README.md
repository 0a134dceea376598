# adg-combobox in Dafny

A model of the accessible, filterable combobox web component `adg-combobox`
and of the translator it uses for its texts. The model proves properties of
both.

The component keeps a list of option records (`OptionModel`: value, label,
checked, hidden). On top of that list it keeps a filter term, an open/closed
flag for the options list, and an arrow-key cursor. It reports what happens
through five custom events: `optionChanged`, `selectionCleared`,
`filterTermChanged`, `optionsDropdownOpened` and `optionsDropdownClosed`.

The modules are:

- `TextOps` (`text_ops.dfy`): the string operations the component relies on.
  These are `toLowerCase`, `trim`, `includes`, `split` on one character, and
  integer to decimal text.
- `ComboboxLogic` (`combobox_logic.dfy`): the datatypes, plus the pure list
  functions the handlers apply to the option records. These are building the
  records, pre-selection, filtering, toggling, exclusive selection, clearing,
  the `modulo` helper of arrow navigation, and the choice of the chip to
  refocus.
- `ComboboxMachine` (`combobox_machine.dfy`): the component state
  (`ComboboxState`) and one transition function per handler.
  - The emitted events are logged in the state, oldest first.
  - The value of the filter input element is the field `inputText`: the
    text last written or typed into it (see "## Left out" for the value the
    next render writes).
  - `Step` and `Run` feed sequences of page events through the handlers.
  - The properties of the component are proved here: the invariant `Valid`,
    the effect of each handler, idempotence, cyclic navigation and
    multi/single selection.
- `ComboboxComponent` (`combobox_component.dfy`): the class `AdgCombobox`. It
  has the component's fields, and its handlers update them in place as the
  source does. Each method is proved to end in exactly the state that the
  matching `ComboboxMachine` transition gives. The methods that stand for
  page events (not the inner `HandleFilterInputChange` and `SetInputValue`,
  which `FilterInputEdited` wraps for a user's edit) also keep `Valid()`.
  - The `map` of `componentWillLoad` is a loop (`PreselectedModels`), proved with invariants.
  - `handleSelectionClearedButtonClick` keeps its `forEach`, proved with
    invariants.
- `Locale` (`locale.dfy`): `TemplateEngine`, which replaces `$(a.b)`
  placeholders, and the function `Translator` returns. The string table is a
  parameter.
- `Scenarios` (`scenarios.dfy`): a select/unselect sequence from the
  end-to-end tests, and a translator example.

Decisions about the component's surroundings:

- `setInputValue` writes the filter input and dispatches an `input` event on
  it. Browsers run listeners of a dispatched event synchronously, so the model
  runs `handleFilterInputChange` at once. This is why a single-select choice
  (which clears `applyFilterOnTermChange` first) writes its label into the
  input without filtering by it. It is also why clearing the selection resets
  the filter.
- A user typing into the filter input is `SetInputValue` with the new text.
- Assigning `optionModels` also runs its `@Watch` handler, which recomputes
  `selectedOptionModels`.
- One key press in the filter input or on an option reaches two handlers,
  first `handleFilterInputKeyDown` or `handleOptionInputKeyDown`, then, as the
  event bubbles, the host's `handleKeyDown`. In an event sequence for `Run`
  it is the pair `FilterInputKeyDown` (or `OptionInputKeyDown`) followed by
  `KeyDown`, in that order.
- `connectedCallback` runs `watchOptionsHandler(options)`; the event
  `OptionsSet` stands for that call.
- Handlers read some DOM facts. These are parameters:
  - whether the filter input has the focus (`handleKeyDown`);
  - whether a click or focus landed inside the widget (`handleDocumentClick`);
  - whether a click has pointer coordinates (`handleOptionInputClick`);
  - how many chip buttons exist when the deferred refocus runs
    (`handleOptionSelectedButtonClick`).

Behaviour of the code worth knowing, each stated by a lemma:

- In single-select mode, changing the option that is already checked
  unchecks it, because the code flips the flag (`SingleReselectUnchecks`).
  Clicking a checked radio fires no `input` event, so this path is reached by
  Enter on the checked option.
- Clearing the selection emits `selectionCleared` even when nothing was
  selected (`ClearResult`, with no previously selected values).
- Pre-selection in single-select mode writes the chosen label into the filter
  term without filtering. So the hidden flags are not an invariant of the
  filter term (`ComponentWillLoadSingle`).
- Filtering an open list does not move the arrow cursor, so after a term that
  hides options the cursor can point past the last shown option
  (`FilterKeepsCursor`). The next arrow key brings it back into range through
  `modulo` (`ArrowKeyResult`).

## Model

| member | source | states |
|---|---|---|
| TextOps.Lower | packages/adg-components/src/components/adg-combobox/adg-combobox.tsx:203 | `toLowerCase`: same length, and each character is mapped through the ASCII lower-case map |
| TextOps.LowerIsLower | packages/adg-components/src/components/adg-combobox/adg-combobox.tsx:203 | a lower-cased string has no upper-case letter, and lower-casing is idempotent |
| TextOps.Trim | packages/adg-components/src/components/adg-combobox/adg-combobox.tsx:196 | `trim`: the result is no longer than the input and starts and ends with non-white-space; it is empty exactly when the input is all white space |
| TextOps.TrimIsSlice | packages/adg-components/src/components/adg-combobox/adg-combobox.tsx:196 | the trimmed string is one contiguous slice of the input, with only white space cut from both ends |
| TextOps.TrimIdempotent | packages/adg-components/src/components/adg-combobox/adg-combobox.tsx:196 | trimming twice is trimming once |
| TextOps.Includes | packages/adg-components/src/components/adg-combobox/adg-combobox.tsx:203 | `includes` as a scan of the start positions from left to right; IncludesIff proves it finds the term exactly when it occurs |
| TextOps.IncludesIff | packages/adg-components/src/components/adg-combobox/adg-combobox.tsx:203 | `includes` by a left-to-right scan holds exactly when the term occurs at some position of the label (both directions) |
| TextOps.Split | packages/adg-components/src/utils/locale.ts:50 | `split('.')` gives at least one piece, and no piece contains the separator |
| TextOps.JoinSplit | packages/adg-components/src/utils/locale.ts:50 | joining the pieces of `split` with the separator gives back the path |
| TextOps.SplitWithoutSeparator | packages/adg-components/src/utils/locale.ts:50 | a path without `.` is one piece |
| TextOps.SplitAfterPiece | packages/adg-components/src/utils/locale.ts:50 | `a.b` with a dot-free `a` splits into `a` followed by the pieces of `b` |
| TextOps.IntToString | packages/adg-components/src/utils/locale.ts:50 | a number renders as `-` exactly when negative, then at least one decimal digit and nothing else, without a leading zero unless the number is 0; the digits denote the number (its magnitude after the `-`) |
| TextOps.NatToStringValue | packages/adg-components/src/utils/locale.ts:50 | the digits written for a natural number read back, most significant first, as that number |
| ComboboxLogic.Filter | packages/adg-components/src/components/adg-combobox/adg-combobox.tsx:105-107 | `Array.prototype.filter`: an element is in the result exactly when it is in the list and passes the test; the result is no longer |
| ComboboxLogic.FilterAppend | packages/adg-components/src/components/adg-combobox/adg-combobox.tsx:105-107 | filtering a concatenation is concatenating the filtered parts |
| ComboboxLogic.FilterKeepsAll | packages/adg-components/src/components/adg-combobox/adg-combobox.tsx:105-107 | when every element passes, `filter` returns the whole list |
| ComboboxLogic.FilterKeepsNone | packages/adg-components/src/components/adg-combobox/adg-combobox.tsx:105-107 | when no element passes, `filter` returns the empty list |
| ComboboxLogic.FilterKeepsOrder | packages/adg-components/src/components/adg-combobox/adg-combobox.tsx:105-107 | `filter` keeps the relative order of the kept elements |
| ComboboxLogic.FilterKeepsOnly | packages/adg-components/src/components/adg-combobox/adg-combobox.tsx:105-107 | when only one element passes the test, `filter` returns just that element |
| ComboboxLogic.Visible | packages/adg-components/src/components/adg-combobox/adg-combobox.tsx:207 | the shown options: a record is in the list exactly when it is a record of the input that is not hidden |
| ComboboxLogic.Selected | packages/adg-components/src/components/adg-combobox/adg-combobox.tsx:104-106 | the selected options: a record is in the list exactly when it is a record of the input that is checked |
| ComboboxLogic.FirstShownLabel | packages/adg-components/src/components/adg-combobox/adg-combobox.tsx:207-211 | the label of the first shown option, or ''; FirstShownLabelIsFirst and FirstShownLabelNone state which |
| ComboboxLogic.FirstShownLabelIsFirst | packages/adg-components/src/components/adg-combobox/adg-combobox.tsx:207-211 | the announced first label is that of the first option that is not hidden |
| ComboboxLogic.FirstShownLabelNone | packages/adg-components/src/components/adg-combobox/adg-combobox.tsx:207-211 | the announced first label is '' when every option is hidden |
| ComboboxLogic.BuildModels | packages/adg-components/src/components/adg-combobox/adg-combobox.tsx:92-98 | one unchecked, shown record per option, in order; a plain string is its own label and its lower-case form is its value |
| ComboboxLogic.BuildModelsShownUnselected | packages/adg-components/src/components/adg-combobox/adg-combobox.tsx:91-99 | fresh records are all shown and none is selected, and the first label is that of the first option |
| ComboboxLogic.Preselect | packages/adg-components/src/components/adg-combobox/adg-combobox.tsx:112-121 | every record keeps its value, label and hidden flag and is checked exactly when `selected` lists its value (multi) or equals it (single) |
| ComboboxLogic.LastMatchingLabel | packages/adg-components/src/components/adg-combobox/adg-combobox.tsx:116-118 | the label of the last record whose value is the selected one, or the term as it was; LastMatchingLabelUnique and LastMatchingLabelAbsent state which |
| ComboboxLogic.PreselectChecks | packages/adg-components/src/components/adg-combobox/adg-combobox.tsx:112-122 | multi-select: the checked values are the listed values that belong to an option; single-select: the checked values are the selected value if it is an option, and with distinct values at most one record is checked |
| ComboboxLogic.LastMatchingLabelUnique | packages/adg-components/src/components/adg-combobox/adg-combobox.tsx:116-118 | with distinct values, the pre-selected filter term is the label of the one matching option |
| ComboboxLogic.LastMatchingLabelAbsent | packages/adg-components/src/components/adg-combobox/adg-combobox.tsx:116-118 | with no matching option, the filter term is left as it was |
| ComboboxLogic.NormalizeTerm | packages/adg-components/src/components/adg-combobox/adg-combobox.tsx:196 | the stored term is the input lower-cased, then trimmed; NormalizeTermIsNormal states its properties |
| ComboboxLogic.NormalizeTermIsNormal | packages/adg-components/src/components/adg-combobox/adg-combobox.tsx:196 | the stored term has no upper-case letter and no leading white space, and normalising it again changes nothing |
| ComboboxLogic.ApplyFilter | packages/adg-components/src/components/adg-combobox/adg-combobox.tsx:201-205 | filtering keeps value, label, checked flag and order, and hides a record exactly when its lower-case label does not include the term |
| ComboboxLogic.ApplyFilterHidesNonMatching | packages/adg-components/src/components/adg-combobox/adg-combobox.tsx:201-205 | a record is hidden exactly when the term occurs at no position of its lower-case label |
| ComboboxLogic.ApplyFilterForgetsEarlierFilter | packages/adg-components/src/components/adg-combobox/adg-combobox.tsx:201-205 | the hidden flags depend only on the current term, not on an earlier filter |
| ComboboxLogic.ApplyFilterEmptyShowsAll | packages/adg-components/src/components/adg-combobox/adg-combobox.tsx:201-205 | the empty term shows every option |
| ComboboxLogic.ToggleChecked | packages/adg-components/src/components/adg-combobox/adg-combobox.tsx:262-266 | multi-select: records with the value have their flag flipped, all others are unchanged |
| ComboboxLogic.ToggleCheckedTwice | packages/adg-components/src/components/adg-combobox/adg-combobox.tsx:262-266 | toggling the same value twice restores the records |
| ComboboxLogic.ToggleCheckedFlipsOne | packages/adg-components/src/components/adg-combobox/adg-combobox.tsx:262-266 | with distinct values, the value enters or leaves the checked set and no other value does |
| ComboboxLogic.SelectExclusive | packages/adg-components/src/components/adg-combobox/adg-combobox.tsx:268-272 | single-select: a record ends up checked exactly when it has the value and was not checked; label, value and hidden flag are kept |
| ComboboxLogic.SelectExclusiveResult | packages/adg-components/src/components/adg-combobox/adg-combobox.tsx:268-272 | with distinct values, at most one record is checked afterwards: the chosen one if it was unchecked, none if it was checked |
| ComboboxLogic.UncheckAll | packages/adg-components/src/components/adg-combobox/adg-combobox.tsx:179-182 | clearing unchecks every record and changes nothing else |
| ComboboxLogic.UncheckAllSelectsNone | packages/adg-components/src/components/adg-combobox/adg-combobox.tsx:179-182 | after clearing, the selected list is empty |
| ComboboxLogic.ValuesOf | packages/adg-components/src/components/adg-combobox/adg-combobox.tsx:176-178 | the values of the selected records, in order |
| ComboboxLogic.FindByValue | packages/adg-components/src/components/adg-combobox/adg-combobox.tsx:275-277 | `find`: nothing exactly when no record has the value, otherwise the first record that has it |
| ComboboxLogic.ChangeEvents | packages/adg-components/src/components/adg-combobox/adg-combobox.tsx:275-280 | one `optionChanged{value, checked}` for the record `find` returns, none when no record has the value; MultiChangeStep, SingleSelectResult and ChangeUnknownValue state it for each case |
| ComboboxLogic.UnselectEvents | packages/adg-components/src/components/adg-combobox/adg-combobox.tsx:183-185 | one `optionChanged{value, false}` per previously selected value, in order |
| ComboboxLogic.JsRem | packages/adg-components/src/components/adg-combobox/adg-combobox.tsx:569 | JavaScript's `%` on integers: the result lies strictly between -n and n and has the sign of the dividend; it equals the floored remainder `a % n` when `a` is not negative or is a multiple of `n`, and `a % n - n` otherwise |
| ComboboxLogic.Modulo | packages/adg-components/src/components/adg-combobox/adg-combobox.tsx:568-570 | `((a % n) + n) % n` with JavaScript's truncating `%` lies in [0, n) and is the floored remainder of `a` by `n` |
| ComboboxLogic.NextCursor | packages/adg-components/src/components/adg-combobox/adg-combobox.tsx:299-304 | the new arrow cursor is a position of `[filter input] ++ shown options` |
| ComboboxLogic.DownPressesWrap | packages/adg-components/src/components/adg-combobox/adg-combobox.tsx:299-304 | k ArrowDown presses move a cursor that is in range by k places, wrapping round |
| ComboboxLogic.NavigationCycles | packages/adg-components/src/components/adg-combobox/adg-combobox.tsx:299-304 | one press per element returns to the filter input; ArrowUp from the filter input reaches the last shown option; ArrowDown from the last shown option returns to the filter input |
| ComboboxLogic.RefocusIndex | packages/adg-components/src/components/adg-combobox/adg-combobox.tsx:332-338 | given the number of chip buttons the deferred callback sees and the clicked index: -1 (the filter input) exactly when that number is 1; otherwise the clicked index when it is below the number minus one, and the index before it when it is not; the result is always a valid chip index or -1 |
| ComboboxMachine.Initial | packages/adg-components/src/components/adg-combobox/adg-combobox.tsx:33-62 | the field initialisers satisfy the invariant, with the options closed, no records and no events |
| ComboboxMachine.WatchOptions | packages/adg-components/src/components/adg-combobox/adg-combobox.tsx:90-100 | rebuilds the records from the options, counts them all as shown and announces the first label; WatchOptionsResult states this |
| ComboboxMachine.ComponentWillLoad | packages/adg-components/src/components/adg-combobox/adg-combobox.tsx:110-123 | recomputes the checked flags from `selected` and, in single-select mode, puts the matching label into the term and the input; ComponentWillLoadSingle and ComponentWillLoadMulti state this |
| ComboboxMachine.Open | packages/adg-components/src/components/adg-combobox/adg-combobox.tsx:354-365 | afterwards the options are open, and records and term are untouched; OpenCloseIdempotent gives the event and the cursor reset |
| ComboboxMachine.Close | packages/adg-components/src/components/adg-combobox/adg-combobox.tsx:367-377 | afterwards the options are closed, and records and term are untouched; OpenCloseIdempotent gives the event |
| ComboboxMachine.HandleFilterInputChange | packages/adg-components/src/components/adg-combobox/adg-combobox.tsx:190-218 | the filter handler; FilterInputResult and FilterInputIgnoredWhenDisabled state its effect |
| ComboboxMachine.SetInputValue | packages/adg-components/src/components/adg-combobox/adg-combobox.tsx:165-173 | writing the filter input runs the filter handler at once; FilterInputResult states the effect |
| ComboboxMachine.HandleFilterInputKeyDown | packages/adg-components/src/components/adg-combobox/adg-combobox.tsx:155-163 | Escape closes the options and every key re-enables filtering; FilterInputKeyDownResult and FilterResumesAfterKeyDown state this |
| ComboboxMachine.HandleToggleButtonClicked | packages/adg-components/src/components/adg-combobox/adg-combobox.tsx:149-153 | closes an open list and opens a closed one; ToggleButtonFlips states this |
| ComboboxMachine.HandleFilterInputClick | packages/adg-components/src/components/adg-combobox/adg-combobox.tsx:145-147 | a click in the filter input opens the options (`Open`) |
| ComboboxMachine.HandleDocumentClick | packages/adg-components/src/components/adg-combobox/adg-combobox.tsx:135-143 | a click or focus outside the widget closes the options; inside it changes nothing |
| ComboboxMachine.SelectedLabel | packages/adg-components/src/components/adg-combobox/adg-combobox.tsx:347-351 | the label of the first selected option, or '' |
| ComboboxMachine.DisplaySelectedItems | packages/adg-components/src/components/adg-combobox/adg-combobox.tsx:347-352 | single-select writes the selected label, or '', into the filter input through `setInputValue`; multi-select changes nothing |
| ComboboxMachine.IsTextInputKey | packages/adg-components/src/components/adg-combobox/adg-combobox.tsx:17 | `textInputRegexp`: a single ASCII letter, `Backspace` or `Delete` |
| ComboboxMachine.HandleOptionInputChange | packages/adg-components/src/components/adg-combobox/adg-combobox.tsx:260-283 | the option-change handler; MultiChangeResult, SingleSelectResult, SingleReselectUnchecks and ChangeUnknownValue state its effect |
| ComboboxMachine.HandleOptionInputKeyDown | packages/adg-components/src/components/adg-combobox/adg-combobox.tsx:237-249 | Enter changes the option and closes in single-select mode, Escape closes; OptionEnterResult and OptionEscapeResult state this |
| ComboboxMachine.HandleOptionInputClick | packages/adg-components/src/components/adg-combobox/adg-combobox.tsx:251-258 | a pointer click closes the options in single-select mode and does nothing otherwise |
| ComboboxMachine.HandleKeyDown | packages/adg-components/src/components/adg-combobox/adg-combobox.tsx:285-328 | arrow keys open or move the cursor cyclically, text keys away from the input reset it; ArrowKeyResult and TextKeyResetsCursor state this |
| ComboboxMachine.HandleSelectionClearedButtonClick | packages/adg-components/src/components/adg-combobox/adg-combobox.tsx:175-188 | the clear handler; ClearResult states its effect |
| ComboboxMachine.HandleOptionSelectedButtonClick | packages/adg-components/src/components/adg-combobox/adg-combobox.tsx:330-345 | a chip click changes its option as an option input does |
| ComboboxMachine.Step | packages/adg-components/src/components/adg-combobox/adg-combobox.tsx:91-377 | dispatches one page event to its handler; StepKeepsValid and StepAppendsEvents state what every handler keeps |
| ComboboxMachine.Run | packages/adg-components/src/components/adg-combobox/adg-combobox.tsx:91-377 | feeds a sequence of page events through Step; RunKeepsValid and RunAppendsEvents hold over every run |
| ComboboxMachine.OpenCloseKeepValid | packages/adg-components/src/components/adg-combobox/adg-combobox.tsx:354-377 | opening and closing keep the invariant |
| ComboboxMachine.HandleFilterInputChangeKeepsValid | packages/adg-components/src/components/adg-combobox/adg-combobox.tsx:190-218 | filtering keeps the invariant: the shown count and the first label follow the hidden flags |
| ComboboxMachine.HandleOptionInputChangeKeepsValid | packages/adg-components/src/components/adg-combobox/adg-combobox.tsx:260-283 | an option change keeps the invariant; in single-select mode with distinct values, at most one option stays checked |
| ComboboxMachine.ComponentWillLoadKeepsValid | packages/adg-components/src/components/adg-combobox/adg-combobox.tsx:110-123 | pre-selection keeps the invariant |
| ComboboxMachine.ClearKeepsValid | packages/adg-components/src/components/adg-combobox/adg-combobox.tsx:175-188 | clearing keeps the invariant |
| ComboboxMachine.OptionInputKeyDownKeepsValid | packages/adg-components/src/components/adg-combobox/adg-combobox.tsx:237-249 | Enter/Escape on an option keeps the invariant |
| ComboboxMachine.KeyDownKeepsValid | packages/adg-components/src/components/adg-combobox/adg-combobox.tsx:285-328 | arrow and text keys keep the invariant, including a non-negative cursor |
| ComboboxMachine.StepKeepsValid | packages/adg-components/src/components/adg-combobox/adg-combobox.tsx:91-377 | every handler the page can trigger keeps the invariant |
| ComboboxMachine.RunKeepsValid | packages/adg-components/src/components/adg-combobox/adg-combobox.tsx:91-377 | every sequence of page events keeps the invariant |
| ComboboxMachine.StepAppendsEvents | packages/adg-components/src/components/adg-combobox/adg-combobox.tsx:84-88 | handlers only append to the event log; nothing emitted is taken back |
| ComboboxMachine.RunAppendsEvents | packages/adg-components/src/components/adg-combobox/adg-combobox.tsx:84-88 | over any sequence of page events, the log only grows at its end |
| ComboboxMachine.WatchOptionsResult | packages/adg-components/src/components/adg-combobox/adg-combobox.tsx:91-99 | new options give the built records with nothing selected, a shown count equal to the number of options, and the first label announced |
| ComboboxMachine.ComponentWillLoadSingle | packages/adg-components/src/components/adg-combobox/adg-combobox.tsx:110-123 | single-select pre-selection of a value (values distinct) checks that option alone and writes its label into the filter term and the input, leaving the hidden flags as they were |
| ComboboxMachine.ComponentWillLoadMulti | packages/adg-components/src/components/adg-combobox/adg-combobox.tsx:110-123 | multi-select pre-selection checks exactly the listed values that are options, and leaves the filter term unchanged |
| ComboboxMachine.FilterInputIgnoredWhenDisabled | packages/adg-components/src/components/adg-combobox/adg-combobox.tsx:191-193 | while `applyFilterOnTermChange` is false, input changes nothing |
| ComboboxMachine.FilterInputResult | packages/adg-components/src/components/adg-combobox/adg-combobox.tsx:190-218 | typing stores the lower-cased, trimmed term; it hides exactly the options whose lower-case label lacks it, and keeps values, labels, flags and order. The count and first label follow. It emits `filterTermChanged{previous, term}`, then `optionsDropdownOpened` when a non-empty term opens the options, and it keeps the invariant |
| ComboboxMachine.FilterKeepsCursor | packages/adg-components/src/components/adg-combobox/adg-combobox.tsx:190-218 | filtering an open list keeps the arrow cursor; a term that matches no label leaves a positive cursor past the (zero) shown options, and the state is still valid |
| ComboboxMachine.FilterInputKeyDownResult | packages/adg-components/src/components/adg-combobox/adg-combobox.tsx:155-163 | a filter-input keydown re-enables filtering and keeps records and term; the options stay open unless the key is Escape, which closes them and emits `optionsDropdownClosed` if they were open |
| ComboboxMachine.FilterResumesAfterKeyDown | packages/adg-components/src/components/adg-combobox/adg-combobox.tsx:155-163 | after any filter-input keydown, even right after a single-select choice, the next edit stores its normalised term, hides exactly the options whose lower-case label lacks it, and keeps the invariant |
| ComboboxMachine.OpenCloseIdempotent | packages/adg-components/src/components/adg-combobox/adg-combobox.tsx:354-377 | open/close are idempotent; opening a closed list emits one event and resets the cursor; closing an open list emits one event |
| ComboboxMachine.ToggleButtonFlips | packages/adg-components/src/components/adg-combobox/adg-combobox.tsx:149-153 | the toggle button always flips the open flag and emits exactly one matching event; two clicks restore the flag |
| ComboboxMachine.ArrowKeyResult | packages/adg-components/src/components/adg-combobox/adg-combobox.tsx:286-315 | when closed, an arrow only opens the list; when open, it moves the cursor to the floored remainder of cursor ± 1 by 1 + shown count and changes nothing else |
| ComboboxMachine.TextKeyResetsCursor | packages/adg-components/src/components/adg-combobox/adg-combobox.tsx:321-327 | a letter, Backspace or Delete typed away from the filter input resets the cursor to the input; typed in the input, it changes nothing |
| ComboboxMachine.ArrowDownsMoveCursor | packages/adg-components/src/components/adg-combobox/adg-combobox.tsx:286-315 | k ArrowDown presses on an open list change only the cursor, which moves k places |
| ComboboxMachine.ArrowNavigationCycles | packages/adg-components/src/components/adg-combobox/adg-combobox.tsx:286-315 | from the filter input, one ArrowDown per element returns to exactly the same state; ArrowUp reaches the last shown option |
| ComboboxMachine.MultiChangeResult | packages/adg-components/src/components/adg-combobox/adg-combobox.tsx:260-283 | multi-select change of an existing value (values distinct): it enters or leaves the checked set and no other value does. One `optionChanged` with the new flag is emitted. Filter and open state are untouched |
| ComboboxMachine.MultiChangeStep | packages/adg-components/src/components/adg-combobox/adg-combobox.tsx:260-283 | multi-select change: the records are toggled at the value, and one `optionChanged` with the new flag is emitted |
| ComboboxMachine.MultiChangeTwice | packages/adg-components/src/components/adg-combobox/adg-combobox.tsx:260-283 | changing the same option twice restores the records and emits two events with opposite flags |
| ComboboxMachine.SingleSelectResult | packages/adg-components/src/components/adg-combobox/adg-combobox.tsx:260-283 | single-select choice of an unchecked option checks it alone and writes its label into the input without filtering. `optionChanged{v, true}` is emitted. Hidden flags and open state are kept |
| ComboboxMachine.SingleReselectUnchecks | packages/adg-components/src/components/adg-combobox/adg-combobox.tsx:268-272 | single-select change of the checked option unchecks it, so nothing is checked; it empties the input without filtering, keeps the term, hidden flags and open state, and emits `optionChanged{v, false}` |
| ComboboxMachine.OptionEnterResult | packages/adg-components/src/components/adg-combobox/adg-combobox.tsx:237-245 | Enter on an unchecked option: in multi-select mode exactly a change; in single-select mode the option alone is selected, its label written into the input without filtering, the options closed, and `optionChanged{v, true}` then (if they were open) `optionsDropdownClosed` emitted |
| ComboboxMachine.OptionEscapeResult | packages/adg-components/src/components/adg-combobox/adg-combobox.tsx:246-248 | Escape on an option only closes the options, emitting `optionsDropdownClosed` when they were open; other keys change nothing |
| ComboboxMachine.ChangeUnknownValue | packages/adg-components/src/components/adg-combobox/adg-combobox.tsx:275-280 | a value no option has emits nothing, and in multi-select mode changes no record |
| ComboboxMachine.SingleSelectTwice | packages/adg-components/src/components/adg-combobox/adg-combobox.tsx:260-283 | single-select: choosing B after A leaves exactly B selected |
| ComboboxMachine.ClearResult | packages/adg-components/src/components/adg-combobox/adg-combobox.tsx:175-188 | clearing unchecks everything and emits one `optionChanged{v, false}` per previously selected value, in order, then `selectionCleared`. It empties the input; when filtering is enabled, the empty term is applied and every option is shown |
| ComboboxComponent.AdgCombobox.constructor | packages/adg-components/src/components/adg-combobox/adg-combobox.tsx:33-62 | the fields start in the initial state, which is valid |
| ComboboxComponent.AdgCombobox.WatchOptionModelsHandler | packages/adg-components/src/components/adg-combobox/adg-combobox.tsx:103-108 | the selected list becomes the checked records |
| ComboboxComponent.AdgCombobox.WatchOptionsHandler | packages/adg-components/src/components/adg-combobox/adg-combobox.tsx:90-100 | the fields end in the `WatchOptions` state and stay valid |
| ComboboxComponent.AdgCombobox.PreselectedModels | packages/adg-components/src/components/adg-combobox/adg-combobox.tsx:112-122 | the `map` loop returns the records checked as `selected` says (`Preselect`), and the label of the last matching option as the single-select filter term |
| ComboboxComponent.AdgCombobox.ComponentWillLoad | packages/adg-components/src/components/adg-combobox/adg-combobox.tsx:110-123 | the fields end in the `ComponentWillLoad` state and the component stays valid |
| ComboboxComponent.AdgCombobox.OpenOptionsContainer | packages/adg-components/src/components/adg-combobox/adg-combobox.tsx:354-365 | the fields end in the `Open` state |
| ComboboxComponent.AdgCombobox.CloseOptionsContainer | packages/adg-components/src/components/adg-combobox/adg-combobox.tsx:367-377 | the fields end in the `Close` state |
| ComboboxComponent.AdgCombobox.HandleFilterInputChange | packages/adg-components/src/components/adg-combobox/adg-combobox.tsx:190-218 | the fields end in the `HandleFilterInputChange` state |
| ComboboxComponent.AdgCombobox.SetInputValue | packages/adg-components/src/components/adg-combobox/adg-combobox.tsx:165-173 | writing the input and running its `input` listener gives the `SetInputValue` state |
| ComboboxComponent.AdgCombobox.FilterInputEdited | packages/adg-components/src/components/adg-combobox/adg-combobox.tsx:417 | a user edit of the filter input runs its `input` listener: the fields end in the `SetInputValue` state and stay valid |
| ComboboxComponent.AdgCombobox.HandleToggleAvailableOptionsButtonClicked | packages/adg-components/src/components/adg-combobox/adg-combobox.tsx:149-153 | the fields end in the toggled state and stay valid |
| ComboboxComponent.AdgCombobox.HandleFilterInputClick | packages/adg-components/src/components/adg-combobox/adg-combobox.tsx:145-147 | the list opens and the component stays valid |
| ComboboxComponent.AdgCombobox.HandleDocumentClick | packages/adg-components/src/components/adg-combobox/adg-combobox.tsx:135-143 | a click outside the widget closes the list; the component stays valid |
| ComboboxComponent.AdgCombobox.HandleFilterInputKeyDown | packages/adg-components/src/components/adg-combobox/adg-combobox.tsx:155-163 | Escape closes; filtering is re-enabled; the component stays valid |
| ComboboxComponent.AdgCombobox.DisplaySelectedItems | packages/adg-components/src/components/adg-combobox/adg-combobox.tsx:347-352 | single-select writes the selected label, or '', into the input |
| ComboboxComponent.AdgCombobox.HandleOptionInputChange | packages/adg-components/src/components/adg-combobox/adg-combobox.tsx:260-283 | the fields end in the `HandleOptionInputChange` state and stay valid |
| ComboboxComponent.AdgCombobox.HandleOptionInputKeyDown | packages/adg-components/src/components/adg-combobox/adg-combobox.tsx:237-249 | the fields end in the `HandleOptionInputKeyDown` state and stay valid |
| ComboboxComponent.AdgCombobox.HandleOptionInputClick | packages/adg-components/src/components/adg-combobox/adg-combobox.tsx:251-258 | a pointer click closes the list in single-select mode; the component stays valid |
| ComboboxComponent.AdgCombobox.HandleKeyDown | packages/adg-components/src/components/adg-combobox/adg-combobox.tsx:285-328 | the fields end in the `HandleKeyDown` state and stay valid |
| ComboboxComponent.AdgCombobox.EmitUnselected | packages/adg-components/src/components/adg-combobox/adg-combobox.tsx:183-185 | the `forEach` appends `UnselectEvents` of the values to the log |
| ComboboxComponent.AdgCombobox.HandleSelectionClearedButtonClick | packages/adg-components/src/components/adg-combobox/adg-combobox.tsx:175-188 | the fields end in the `HandleSelectionClearedButtonClick` state and stay valid |
| ComboboxComponent.AdgCombobox.HandleOptionSelectedButtonClick | packages/adg-components/src/components/adg-combobox/adg-combobox.tsx:330-345 | the option changes as for `handleOptionInputChange`, and the chip to refocus is `RefocusIndex` |
| Locale.Lookup | packages/adg-components/src/utils/locale.ts:58 | `strings[str] \|\| str`: the result is the table's entry or the key, and it is blank only for a blank key |
| Locale.LookupResult | packages/adg-components/src/utils/locale.ts:58 | a non-blank entry wins; a missing or blank entry falls back to the key |
| Locale.Translate | packages/adg-components/src/utils/locale.ts:57-65 | without exactly one object (or `null`) argument, the looked-up string is returned untemplated |
| Locale.Get | packages/adg-components/src/utils/locale.ts:50 | `p?.[c]`: an own property of an object, `undefined` for a missing one and for `null` or `undefined`; WalkFromNothing and MissingKeyRendersUndefined state it |
| Locale.Walk | packages/adg-components/src/utils/locale.ts:50 | `reduce((p, c) => p?.[c], data)` over the pieces of the path; WalkFromNothing states the optional chaining |
| Locale.Resolve | packages/adg-components/src/utils/locale.ts:50 | the value a dotted path reaches; ResolveKey and ResolveDotted state it step by step |
| Locale.Render | packages/adg-components/src/utils/locale.ts:50 | `${v}`: the text of a value, with an integer rendered by IntToString |
| Locale.Template | packages/adg-components/src/utils/locale.ts:44-52 | the regex replacement scan: each `$(` up to the first `)` is replaced, `$()` throws; TemplatePlaceholder, TemplateWithoutPlaceholder, TemplateLiteralPrefix and TemplateErrorNeedsEmptyPlaceholder state it |
| Locale.TemplateWithoutPlaceholder | packages/adg-components/src/utils/locale.ts:44-52 | a template without `$(` is returned unchanged |
| Locale.TemplateWithoutMatch | packages/adg-components/src/utils/locale.ts:49 | a template in which no `$(` is followed by a `)` holds no match of the pattern and is returned unchanged |
| Locale.TemplateWithoutClose | packages/adg-components/src/utils/locale.ts:49 | a template without `)` is returned unchanged, so an unclosed `$(` stays literal |
| Locale.TemplateLiteralPrefix | packages/adg-components/src/utils/locale.ts:44-52 | literal text (no `$(`, not ending in `$`) is copied in front of what the rest of the template gives |
| Locale.TemplatePlaceholder | packages/adg-components/src/utils/locale.ts:49-51 | `$(path)` with a non-empty path is replaced by the rendered value of the path, and the scan resumes after its `)` |
| Locale.TemplateEmptyPlaceholder | packages/adg-components/src/utils/locale.ts:49-50 | `$()` throws a TypeError |
| Locale.TemplateErrorNeedsEmptyPlaceholder | packages/adg-components/src/utils/locale.ts:49-50 | the template engine throws only on a template in which `$()` occurs |
| Locale.WalkFromNothing | packages/adg-components/src/utils/locale.ts:50 | optional chaining: from `undefined`, or from `null` with at least one step, the lookup gives `undefined` without throwing |
| Locale.ResolveFromNothing | packages/adg-components/src/utils/locale.ts:50 | every path resolves to `undefined` from `null` or `undefined` data |
| Locale.ResolveKey | packages/adg-components/src/utils/locale.ts:50 | a dot-free path is one property lookup |
| Locale.ResolveDotted | packages/adg-components/src/utils/locale.ts:50 | `a.b` looks up `a`, then `b` from there |
| Locale.MissingKeyRendersUndefined | packages/adg-components/src/utils/locale.ts:50 | a property the object lacks renders as `undefined` |
| Locale.TranslatePlain | packages/adg-components/src/utils/locale.ts:55-66 | a translation without `$(` is returned as it is, whatever the arguments |
| Locale.TranslateErrorNeedsEmptyPlaceholder | packages/adg-components/src/utils/locale.ts:55-66 | translating fails only for a looked-up string that holds `$()` |
| Locale.TranslateOnePlaceholder | packages/adg-components/src/utils/locale.ts:55-66 | literal text plus one `$(name)`, translated with `{name: v}`, gives the text followed by `v` |
| Scenarios.CheckSoccer | tests/multiselect.spec.ts:333-335 | multi-select with nothing checked: checking "soccer" checks it alone and emits `optionChanged{soccer, true}` |
| Scenarios.MultiSelectThreeChanges | tests/multiselect.spec.ts:333-353 | checking "soccer", then "movies", then unchecking "movies" emits those three events in order and leaves only "soccer" checked |
| Scenarios.TranslateUnknownKey | packages/adg-components/src/utils/locale.ts:58 | a key missing from the table is shown as it is, even with template data |

## Left out

- Rendering (`render`, `componentWillRender`, `getAssetPath`) is not modelled. The same goes for the live region (`setupLiveRegion`), the generated element ids, and the console warning of `connectedCallback`.
- ComboboxLogic.RefocusIndex: the chip count is a parameter, and which count the code sees is not modelled. The callback reads `optionSelectedButtons.length` inside `setTimeout` (adg-combobox.tsx:332-338); `componentWillRender` empties that array (adg-combobox.tsx:380-381) and the chip refs refill it during render. With `taskQueue: 'async'` (stencil.config.ts:8) the re-render may run before or after the callback. If it runs after, the count is the old one, and an index that is not the last one refers to the removed chip itself. If it runs before, two chips give a count of 1, so the filter input gets the focus while one chip remains.
- DOM focus, text selection and `setTimeout` are not modelled. The facts handlers read from the DOM are parameters (see above). In particular, the chip focused after a chip click is returned as an index and not focused.
- The hidden flags are those of `optionModels`. The source filters the rendered list items, which follow them after a re-render.
- The PageUp/PageDown handler (`handleKeyUpForPageUpAndPageDown`) is not modelled: it only moves DOM focus.
- Loading the locale strings (`fetch`, the fallback to `en`, `getComponentClosestLanguage`) is not modelled. The string table is a parameter of `Translate`.
- The console message for `?` in `handleKeyDown` is not modelled.
- The `multi` and `selected` properties are fixed for the life of the component. A change of them after load re-runs nothing in the source either.
- ComboboxComponent.AdgCombobox.WatchOptionsHandler and ComboboxMachine.WatchOptions require a non-empty options list. The source then reads `optionModels[0].label` and throws, and throwing is not modelled.
- TextOps.Lower: `toLowerCase` is modelled on ASCII letters only; other letters are kept.
- TextOps.Trim: the white space removed is space, tab, line feed, carriage return, vertical tab, form feed, no-break space and the byte-order mark. The other Unicode space separators and line terminators are not modelled.
- Locale.Get: a property lookup on a string, number or boolean gives `undefined` in the model. In JavaScript it reaches built-in properties such as `length`. Inherited object properties are left out as well.
- Locale.Render: numbers are integers, so floating-point formatting is not modelled. Arrays and functions are not modelled as values either.
- Locale.Lookup: the table maps keys to strings. Non-string entries and inherited properties of the table object are not modelled.
- The filtering example of the end-to-end tests ("ing" over the twelve hobbies leaves nine shown) is not stated for that concrete list: evaluating the filter over twelve concrete labels is too costly for the verifier. FilterInputResult states the same effect for every list and term.
- The filter input's displayed value after a render is not modelled. `render` binds `value={this.filterTerm}`, so after a term change the next render shows the lower-cased, trimmed term; `inputText` keeps the text last written or typed. No lemma states `inputText` after filtering, and re-reading the normalised term gives the same term (`NormalizeTermIsNormal`).
- The `\|\| ''` after the template literal in `TemplateEngine` is not modelled separately: a template literal always gives a string, so it changes nothing.
