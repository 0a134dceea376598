/** The state of one `adg-combobox` instance with the DOM taken out, and one
    pure transition per handler of the component. The class in
    ComboboxComponent runs the same handlers in place and is proved to follow
    these transitions; the properties of the component are proved here. */
module ComboboxMachine {
  import opened TextOps
  import opened ComboboxLogic

  /** The fields of the component. `inputText` is the current value of the
      filter input element; `lastArrowSelectedElem` is the cursor over
      `[filter input] ++ shown options` (0 is the filter input); `events` is
      the log of emitted custom events, oldest first. */
  datatype ComboboxState = ComboboxState(
    multi: bool,
    selected: Preselection,
    optionModels: seq<OptionModel>,
    selectedOptionModels: seq<OptionModel>,
    filterTerm: string,
    inputText: string,
    isOptionsContainerOpen: bool,
    lastArrowSelectedElem: int,
    applyFilterOnTermChange: bool,
    numberOfShownOptions: int,
    filteredOptionsStartingWith: string,
    events: seq<Event>)

  /** What every handler keeps: the selected list is the checked subset, the
      shown count and first-shown label agree with the hidden flags, the cursor
      is not negative, and single-select mode (with distinct values) never has
      two options checked. */
  predicate Valid(s: ComboboxState)
  {
    && s.selectedOptionModels == Selected(s.optionModels)
    && s.numberOfShownOptions == |Visible(s.optionModels)|
    && s.filteredOptionsStartingWith == FirstShownLabel(s.optionModels)
    && s.lastArrowSelectedElem >= 0
    && (!s.multi && UniqueValues(s.optionModels) ==> AtMostOneChecked(s.optionModels))
  }

  /** The field initialisers of the component. */
  function Initial(multi: bool, selected: Preselection): (s: ComboboxState)
    ensures Valid(s)
    ensures !s.isOptionsContainerOpen && s.events == [] && s.optionModels == []
  {
    ComboboxState(multi, selected, [], [], "", "", false, 0, true, 0, "", [])
  }

  /** Assigning `optionModels` also runs `watchOptionModelsHandler`. */
  function WithModels(s: ComboboxState, models: seq<OptionModel>): ComboboxState
  {
    s.(optionModels := models, selectedOptionModels := Selected(models))
  }

  function Emit(s: ComboboxState, es: seq<Event>): ComboboxState
  {
    s.(events := s.events + es)
  }

  // ---------------------------------------------------------------------------
  // The handlers

  /** `watchOptionsHandler`: rebuild the records from the `options` property.
      An empty list makes the source throw on `optionModels[0]`. */
  function WatchOptions(s: ComboboxState, newValue: seq<RawOption>): ComboboxState
    requires |newValue| > 0
  {
    var models := BuildModels(newValue);
    WithModels(s, models).(numberOfShownOptions := |newValue|,
                           filteredOptionsStartingWith := models[0].labelText)
  }

  /** `componentWillLoad` followed by the first render, which writes
      `filterTerm` into the filter input. */
  function ComponentWillLoad(s: ComboboxState): ComboboxState
  {
    var term := if !s.multi && s.selected.OneValue?
      then LastMatchingLabel(s.optionModels, s.selected.value, s.filterTerm)
      else s.filterTerm;
    WithModels(s, Preselect(s.optionModels, s.multi, s.selected)).(filterTerm := term, inputText := term)
  }

  /** `openOptionsContainer`: does nothing when already open. */
  function Open(s: ComboboxState): (r: ComboboxState)
    ensures r.isOptionsContainerOpen
    ensures r.optionModels == s.optionModels && r.filterTerm == s.filterTerm
  {
    if s.isOptionsContainerOpen then s
    else Emit(s.(isOptionsContainerOpen := true, lastArrowSelectedElem := 0), [OptionsDropdownOpened])
  }

  /** `closeOptionsContainer`: does nothing when already closed. */
  function Close(s: ComboboxState): (r: ComboboxState)
    ensures !r.isOptionsContainerOpen
    ensures r.optionModels == s.optionModels && r.filterTerm == s.filterTerm
  {
    if !s.isOptionsContainerOpen then s
    else Emit(s.(isOptionsContainerOpen := false), [OptionsDropdownClosed])
  }

  /** `handleFilterInputChange`, reading the filter input's value. */
  function HandleFilterInputChange(s: ComboboxState): ComboboxState
  {
    if !s.applyFilterOnTermChange then s
    else
      var term := NormalizeTerm(s.inputText);
      var models := ApplyFilter(s.optionModels, term);
      var shown := Visible(models);
      var s1 := WithModels(s, models).(
        filterTerm := term,
        numberOfShownOptions := |shown|,
        filteredOptionsStartingWith := if |shown| > 0 then shown[0].labelText else "");
      var s2 := Emit(s1, [FilterTermChanged(s.filterTerm, term)]);
      if term != "" then Open(s2) else s2
  }

  /** `setInputValue`: write the filter input and dispatch an `input` event
      on it, which runs `handleFilterInputChange` synchronously. A user's edit
      of the filter input has the same effect: the browser updates the value
      and fires `input`. */
  function SetInputValue(s: ComboboxState, val: string): ComboboxState
  {
    HandleFilterInputChange(s.(inputText := val))
  }

  /** `handleToggleAvailableOptionsButtonClicked`. */
  function HandleToggleButtonClicked(s: ComboboxState): ComboboxState
  {
    if s.isOptionsContainerOpen then Close(s) else Open(s)
  }

  /** `handleFilterInputClick`. */
  function HandleFilterInputClick(s: ComboboxState): ComboboxState
  {
    Open(s)
  }

  /** `handleDocumentClick`: a click or focus outside the widget closes it. */
  function HandleDocumentClick(s: ComboboxState, insideWidget: bool): ComboboxState
  {
    if insideWidget then s else Close(s)
  }

  /** `handleFilterInputKeyDown`: Escape closes; every key re-enables filtering. */
  function HandleFilterInputKeyDown(s: ComboboxState, key: string): ComboboxState
  {
    (if key == "Escape" then Close(s) else s).(applyFilterOnTermChange := true)
  }

  /** Label shown in the filter input after a single-select change: the first
      checked entry of `selectedOptionModels`, or ''. */
  function SelectedLabel(s: ComboboxState): string
  {
    var checked := Selected(s.selectedOptionModels);
    if |checked| > 0 then checked[0].labelText else ""
  }

  /** `displaySelectedItems`: single-select mirrors the choice into the filter input. */
  function DisplaySelectedItems(s: ComboboxState): ComboboxState
  {
    if s.multi then s else SetInputValue(s, SelectedLabel(s))
  }

  /** `handleOptionInputChange`: flip one option (multi) or select exclusively
      (single), emit `optionChanged`, then mirror the selection. */
  function HandleOptionInputChange(s: ComboboxState, value: string): ComboboxState
  {
    var s1 := if s.multi then WithModels(s, ToggleChecked(s.optionModels, value))
              else WithModels(s.(applyFilterOnTermChange := false), SelectExclusive(s.optionModels, value));
    DisplaySelectedItems(Emit(s1, ChangeEvents(s1.optionModels, value)))
  }

  /** `handleOptionInputKeyDown`: Enter changes the option (and closes in
      single-select mode); Escape closes. */
  function HandleOptionInputKeyDown(s: ComboboxState, key: string, value: string): ComboboxState
  {
    if key == "Enter" then
      var s1 := HandleOptionInputChange(s, value);
      if !s.multi then Close(s1) else s1
    else if key == "Escape" then Close(s)
    else s
  }

  /** `handleOptionInputClick`: a pointer click closes in single-select mode. */
  function HandleOptionInputClick(s: ComboboxState, hasPointerCoordinates: bool): ComboboxState
  {
    if hasPointerCoordinates && !s.multi then Close(s) else s
  }

  /** `textInputRegexp`: one ASCII letter, `Backspace` or `Delete`. */
  predicate IsTextInputKey(key: string)
  {
    (|key| == 1 && ('a' <= key[0] <= 'z' || 'A' <= key[0] <= 'Z')) || key == "Backspace" || key == "Delete"
  }

  /** `handleKeyDown` on the component: arrow keys open the options or move
      the cursor cyclically; a text key typed away from the filter input sends
      the cursor back to it. (An arrow key never matches the text-key pattern,
      so the arrow branch ends the handler.) */
  function HandleKeyDown(s: ComboboxState, key: string, filterInputFocused: bool): ComboboxState
  {
    if key == "ArrowDown" || key == "ArrowUp" then
      if !s.isOptionsContainerOpen then Open(s)
      else s.(lastArrowSelectedElem :=
                NextCursor(s.lastArrowSelectedElem, key == "ArrowDown", |Visible(s.optionModels)|))
    else if IsTextInputKey(key) && !filterInputFocused then s.(lastArrowSelectedElem := 0)
    else s
  }

  /** `handleSelectionClearedButtonClick`. */
  function HandleSelectionClearedButtonClick(s: ComboboxState): ComboboxState
  {
    var values := ValuesOf(s.selectedOptionModels);
    var s1 := WithModels(s, UncheckAll(s.optionModels));
    SetInputValue(Emit(s1, UnselectEvents(values) + [SelectionCleared]), "")
  }

  /** `handleOptionSelectedButtonClick`: the chip's option is changed; the
      chip to refocus is `RefocusIndex`. */
  function HandleOptionSelectedButtonClick(s: ComboboxState, value: string): ComboboxState
  {
    HandleOptionInputChange(s, value)
  }

  // ---------------------------------------------------------------------------
  // Events from the page, and runs of them

  datatype UiEvent =
    | OptionsSet(options: seq<RawOption>)
    | Load
    | FilterInput(text: string)
    | FilterInputKeyDown(key: string)
    | FilterInputClick
    | ToggleButtonClick
    | DocumentClick(insideWidget: bool)
    | KeyDown(key: string, filterInputFocused: bool)
    | OptionInput(value: string)
    | OptionInputKeyDown(key: string, value: string)
    | OptionInputClick(hasPointerCoordinates: bool)
    | ClearButtonClick
    | ChipClick(value: string)

  /** Every event except an empty options list, which makes the source throw. */
  predicate Handled(e: UiEvent)
  {
    e.OptionsSet? ==> |e.options| > 0
  }

  function Step(s: ComboboxState, e: UiEvent): ComboboxState
    requires Handled(e)
  {
    match e
    case OptionsSet(options) => WatchOptions(s, options)
    case Load => ComponentWillLoad(s)
    case FilterInput(text) => SetInputValue(s, text)
    case FilterInputKeyDown(key) => HandleFilterInputKeyDown(s, key)
    case FilterInputClick => HandleFilterInputClick(s)
    case ToggleButtonClick => HandleToggleButtonClicked(s)
    case DocumentClick(inside) => HandleDocumentClick(s, inside)
    case KeyDown(key, focused) => HandleKeyDown(s, key, focused)
    case OptionInput(value) => HandleOptionInputChange(s, value)
    case OptionInputKeyDown(key, value) => HandleOptionInputKeyDown(s, key, value)
    case OptionInputClick(pointer) => HandleOptionInputClick(s, pointer)
    case ClearButtonClick => HandleSelectionClearedButtonClick(s)
    case ChipClick(value) => HandleOptionSelectedButtonClick(s, value)
  }

  function Run(s: ComboboxState, es: seq<UiEvent>): ComboboxState
    requires forall k :: 0 <= k < |es| ==> Handled(es[k])
    decreases |es|
  {
    if es == [] then s else Run(Step(s, es[0]), es[1..])
  }

  // ---------------------------------------------------------------------------
  // The invariant

  /** Changing checked flags only keeps the derived fields right. */
  lemma WithCheckedKeepsValid(s: ComboboxState, models: seq<OptionModel>)
    requires Valid(s)
    requires |models| == |s.optionModels|
    requires forall i :: 0 <= i < |models| ==>
      models[i].value == s.optionModels[i].value && models[i].labelText == s.optionModels[i].labelText
      && models[i].hidden == s.optionModels[i].hidden
    requires !s.multi && UniqueValues(models) ==> AtMostOneChecked(models)
    ensures Valid(WithModels(s, models))
  {
    SameVisibility(models, s.optionModels);
  }

  lemma OpenCloseKeepValid(s: ComboboxState)
    requires Valid(s)
    ensures Valid(Open(s)) && Valid(Close(s))
  {
  }

  lemma HandleFilterInputChangeKeepsValid(s: ComboboxState)
    requires Valid(s)
    ensures Valid(HandleFilterInputChange(s))
  {
    if s.applyFilterOnTermChange {
      var term := NormalizeTerm(s.inputText);
      var models := ApplyFilter(s.optionModels, term);
      var shown := Visible(models);
      ApplyFilterKeepsChecks(s.optionModels, term);
      var s1 := WithModels(s, models).(
        filterTerm := term,
        numberOfShownOptions := |shown|,
        filteredOptionsStartingWith := if |shown| > 0 then shown[0].labelText else "");
      assert s1.filteredOptionsStartingWith == FirstShownLabel(models);
      assert Valid(s1);
      var s2 := Emit(s1, [FilterTermChanged(s.filterTerm, term)]);
      assert Valid(s2);
      OpenCloseKeepValid(s2);
    }
  }

  lemma HandleOptionInputChangeKeepsValid(s: ComboboxState, value: string)
    requires Valid(s)
    ensures Valid(HandleOptionInputChange(s, value))
  {
    var s1 := if s.multi then WithModels(s, ToggleChecked(s.optionModels, value))
              else WithModels(s.(applyFilterOnTermChange := false), SelectExclusive(s.optionModels, value));
    if s.multi {
      WithCheckedKeepsValid(s, ToggleChecked(s.optionModels, value));
    } else {
      var models := SelectExclusive(s.optionModels, value);
      if UniqueValues(models) {
        assert UniqueValues(s.optionModels);
        SelectExclusiveAtMostOne(s.optionModels, value);
      }
      WithCheckedKeepsValid(s.(applyFilterOnTermChange := false), models);
    }
    var s2 := Emit(s1, ChangeEvents(s1.optionModels, value));
    if !s.multi {
      HandleFilterInputChangeKeepsValid(s2.(inputText := SelectedLabel(s2)));
    }
  }

  lemma ComponentWillLoadKeepsValid(s: ComboboxState)
    requires Valid(s)
    ensures Valid(ComponentWillLoad(s))
  {
    var models := Preselect(s.optionModels, s.multi, s.selected);
    PreselectChecks(s.optionModels, s.multi, s.selected);
    if !s.multi && UniqueValues(models) {
      assert UniqueValues(s.optionModels);
    }
    WithCheckedKeepsValid(s, models);
  }

  lemma ClearKeepsValid(s: ComboboxState)
    requires Valid(s)
    ensures Valid(HandleSelectionClearedButtonClick(s))
  {
    var models := UncheckAll(s.optionModels);
    WithCheckedKeepsValid(s, models);
    var s1 := WithModels(s, models);
    HandleFilterInputChangeKeepsValid(
      Emit(s1, UnselectEvents(ValuesOf(s.selectedOptionModels)) + [SelectionCleared]).(inputText := ""));
  }

  lemma OptionInputKeyDownKeepsValid(s: ComboboxState, key: string, value: string)
    requires Valid(s)
    ensures Valid(HandleOptionInputKeyDown(s, key, value))
  {
    if key == "Enter" {
      HandleOptionInputChangeKeepsValid(s, value);
      OpenCloseKeepValid(HandleOptionInputChange(s, value));
    } else {
      OpenCloseKeepValid(s);
    }
  }

  lemma KeyDownKeepsValid(s: ComboboxState, key: string, focused: bool)
    requires Valid(s)
    ensures Valid(HandleKeyDown(s, key, focused))
  {
    OpenCloseKeepValid(s);
  }

  /** Every handler keeps the invariant. */
  lemma StepKeepsValid(s: ComboboxState, e: UiEvent)
    requires Valid(s) && Handled(e)
    ensures Valid(Step(s, e))
  {
    match e
    case OptionsSet(options) => BuildModelsShownUnselected(options);
    case Load => ComponentWillLoadKeepsValid(s);
    case FilterInput(text) => HandleFilterInputChangeKeepsValid(s.(inputText := text));
    case FilterInputKeyDown(key) => OpenCloseKeepValid(s);
    case FilterInputClick => OpenCloseKeepValid(s);
    case ToggleButtonClick => OpenCloseKeepValid(s);
    case DocumentClick(inside) => OpenCloseKeepValid(s);
    case KeyDown(key, focused) => KeyDownKeepsValid(s, key, focused);
    case OptionInput(value) => HandleOptionInputChangeKeepsValid(s, value);
    case OptionInputKeyDown(key, value) => OptionInputKeyDownKeepsValid(s, key, value);
    case OptionInputClick(pointer) => OpenCloseKeepValid(s);
    case ClearButtonClick => ClearKeepsValid(s);
    case ChipClick(value) => HandleOptionInputChangeKeepsValid(s, value);
  }

  /** Any run of handled events from a valid state ends in a valid state. */
  lemma {:induction false} RunKeepsValid(s: ComboboxState, es: seq<UiEvent>)
    requires Valid(s)
    requires forall k :: 0 <= k < |es| ==> Handled(es[k])
    ensures Valid(Run(s, es))
    decreases |es|
  {
    if es != [] {
      StepKeepsValid(s, es[0]);
      RunKeepsValid(Step(s, es[0]), es[1..]);
    }
  }

  /** A run never shrinks the event log: events are only ever appended. */
  lemma {:induction false} RunAppendsEvents(s: ComboboxState, es: seq<UiEvent>)
    requires forall k :: 0 <= k < |es| ==> Handled(es[k])
    ensures s.events <= Run(s, es).events
    decreases |es|
  {
    if es != [] {
      StepAppendsEvents(s, es[0]);
      RunAppendsEvents(Step(s, es[0]), es[1..]);
    }
  }

  lemma FilterInputAppendsEvents(s: ComboboxState)
    ensures s.events <= HandleFilterInputChange(s).events
  {
  }

  lemma OptionInputChangeAppendsEvents(s: ComboboxState, value: string)
    ensures s.events <= HandleOptionInputChange(s, value).events
  {
    var s1 := if s.multi then WithModels(s, ToggleChecked(s.optionModels, value))
              else WithModels(s.(applyFilterOnTermChange := false), SelectExclusive(s.optionModels, value));
    var s2 := Emit(s1, ChangeEvents(s1.optionModels, value));
    FilterInputAppendsEvents(s2.(inputText := SelectedLabel(s2)));
  }

  lemma StepAppendsEvents(s: ComboboxState, e: UiEvent)
    requires Handled(e)
    ensures s.events <= Step(s, e).events
  {
    match e
    case FilterInput(text) => FilterInputAppendsEvents(s.(inputText := text));
    case OptionInput(value) => OptionInputChangeAppendsEvents(s, value);
    case ChipClick(value) => OptionInputChangeAppendsEvents(s, value);
    case OptionInputKeyDown(key, value) => OptionInputChangeAppendsEvents(s, value);
    case ClearButtonClick =>
      var s1 := WithModels(s, UncheckAll(s.optionModels));
      FilterInputAppendsEvents(
        Emit(s1, UnselectEvents(ValuesOf(s.selectedOptionModels)) + [SelectionCleared]).(inputText := ""));
    case _ =>
  }

  // ---------------------------------------------------------------------------
  // Option normalisation and pre-selection

  /** New options: one unchecked, shown record per option in order, nothing
      selected, every option counted as shown, the first label announced. */
  lemma WatchOptionsResult(s: ComboboxState, newValue: seq<RawOption>)
    requires |newValue| > 0
    ensures WatchOptions(s, newValue).optionModels == BuildModels(newValue)
    ensures WatchOptions(s, newValue).selectedOptionModels == []
    ensures WatchOptions(s, newValue).numberOfShownOptions == |newValue|
      == |Visible(WatchOptions(s, newValue).optionModels)|
    ensures WatchOptions(s, newValue).filteredOptionsStartingWith
      == FirstShownLabel(WatchOptions(s, newValue).optionModels)
  {
    BuildModelsShownUnselected(newValue);
  }

  /** Single-select pre-selection of an option value (values distinct): that
      option alone is checked and its label is written into the filter input;
      the hidden flags are left as they were. */
  lemma ComponentWillLoadSingle(s: ComboboxState, i: int)
    requires !s.multi && s.selected.OneValue?
    requires UniqueValues(s.optionModels)
    requires 0 <= i < |s.optionModels| && s.optionModels[i].value == s.selected.value
    ensures Selected(ComponentWillLoad(s).optionModels) == [s.optionModels[i].(checked := true)]
    ensures ComponentWillLoad(s).filterTerm == ComponentWillLoad(s).inputText == s.optionModels[i].labelText
    ensures forall k :: 0 <= k < |s.optionModels| ==>
      ComponentWillLoad(s).optionModels[k].hidden == s.optionModels[k].hidden
  {
    var models := Preselect(s.optionModels, s.multi, s.selected);
    FilterKeepsOnly(models, IsChecked, i);
    LastMatchingLabelUnique(s.optionModels, s.selected.value, s.filterTerm, i);
  }

  /** Multi-select pre-selection: the checked values are the listed values
      that belong to an option, and the filter term is untouched. */
  lemma ComponentWillLoadMulti(s: ComboboxState)
    requires s.multi && s.selected.Values?
    ensures CheckedValues(ComponentWillLoad(s).optionModels)
      == ValueSet(s.optionModels) * set v | v in s.selected.values
    ensures ComponentWillLoad(s).filterTerm == s.filterTerm
  {
    PreselectChecks(s.optionModels, s.multi, s.selected);
  }

  // ---------------------------------------------------------------------------
  // Filtering

  /** While `applyFilterOnTermChange` is false the input handler does nothing. */
  lemma FilterInputIgnoredWhenDisabled(s: ComboboxState)
    requires !s.applyFilterOnTermChange
    ensures HandleFilterInputChange(s) == s
  {
  }

  /** Filtering: the stored term is the input lower-cased and trimmed; an
      option is hidden exactly when the term occurs nowhere in its lower-case
      label; values, labels, checked flags and order are kept; the shown count
      and the first shown label follow; one `filterTermChanged` is emitted,
      followed by `optionsDropdownOpened` when a non-empty term opens the
      options; a non-empty term opens them and no term closes them. */
  lemma FilterInputResult(s: ComboboxState, text: string)
    requires Valid(s) && s.applyFilterOnTermChange
    ensures var r := SetInputValue(s, text);
      var term := NormalizeTerm(text);
      && r.filterTerm == term
      && |r.optionModels| == |s.optionModels|
      && (forall i :: 0 <= i < |r.optionModels| ==>
            r.optionModels[i].value == s.optionModels[i].value
            && r.optionModels[i].labelText == s.optionModels[i].labelText
            && r.optionModels[i].checked == s.optionModels[i].checked
            && (r.optionModels[i].hidden <==>
                  !exists k :: OccursAt(Lower(s.optionModels[i].labelText), term, k)))
      && r.numberOfShownOptions == |Visible(r.optionModels)|
      && r.filteredOptionsStartingWith == FirstShownLabel(r.optionModels)
      && r.isOptionsContainerOpen == (s.isOptionsContainerOpen || term != "")
      && r.events == s.events + [FilterTermChanged(s.filterTerm, term)]
           + (if term != "" && !s.isOptionsContainerOpen then [OptionsDropdownOpened] else [])
      && Valid(r)
  {
    var term := NormalizeTerm(text);
    forall i | 0 <= i < |s.optionModels|
      ensures ApplyFilter(s.optionModels, term)[i].hidden <==>
        !exists k :: OccursAt(Lower(s.optionModels[i].labelText), term, k)
    {
      ApplyFilterHidesNonMatching(s.optionModels, term, i);
    }
    HandleFilterInputChangeKeepsValid(s.(inputText := text));
  }

  /** Filtering an open list leaves the arrow cursor where it was, even when
      the cursor is then past the last shown option: a term that matches no
      label hides every option but keeps the cursor, and the state is still
      `Valid`. The next arrow key brings the cursor back into range
      (`ArrowKeyResult`). */
  lemma FilterKeepsCursor(s: ComboboxState, text: string)
    requires Valid(s) && s.isOptionsContainerOpen && s.applyFilterOnTermChange
    requires forall i :: 0 <= i < |s.optionModels| ==>
      !Includes(Lower(s.optionModels[i].labelText), NormalizeTerm(text))
    ensures var r := SetInputValue(s, text);
      && r.lastArrowSelectedElem == s.lastArrowSelectedElem
      && r.isOptionsContainerOpen
      && r.numberOfShownOptions == 0
      && (s.lastArrowSelectedElem > 0 ==> r.lastArrowSelectedElem > r.numberOfShownOptions)
      && Valid(r)
  {
    var r := SetInputValue(s, text);
    FilterKeepsNone(r.optionModels, IsShown);
    HandleFilterInputChangeKeepsValid(s.(inputText := text));
  }

  /** A keydown in the filter input re-enables filtering, which a
      single-select choice had switched off; Escape also closes the options.
      Records and term are untouched. */
  lemma FilterInputKeyDownResult(s: ComboboxState, key: string)
    ensures var r := HandleFilterInputKeyDown(s, key);
      && r.applyFilterOnTermChange
      && r.optionModels == s.optionModels
      && r.filterTerm == s.filterTerm
      && r.isOptionsContainerOpen == (s.isOptionsContainerOpen && key != "Escape")
      && r.events == s.events
           + (if key == "Escape" && s.isOptionsContainerOpen then [OptionsDropdownClosed] else [])
  {
    OpenCloseIdempotent(s);
  }

  /** After any filter-input keydown, typing filters again: even right after
      a single-select choice, the next edit stores its normalised term and
      hides exactly the options whose lower-case label lacks it. */
  lemma FilterResumesAfterKeyDown(s: ComboboxState, key: string, text: string)
    requires Valid(s)
    ensures var r := SetInputValue(HandleFilterInputKeyDown(s, key), text);
      var term := NormalizeTerm(text);
      && r.filterTerm == term
      && |r.optionModels| == |s.optionModels|
      && (forall i :: 0 <= i < |r.optionModels| ==>
            (r.optionModels[i].hidden <==>
               !exists k :: OccursAt(Lower(s.optionModels[i].labelText), term, k)))
      && Valid(r)
  {
    var s1 := HandleFilterInputKeyDown(s, key);
    FilterInputKeyDownResult(s, key);
    OpenCloseKeepValid(s);
    assert Valid(s1);
    FilterInputResult(s1, text);
  }

  // ---------------------------------------------------------------------------
  // Opening and closing

  /** Opening and closing are idempotent; opening a closed widget emits one
      `optionsDropdownOpened` and moves the cursor to the filter input,
      closing an open one emits one `optionsDropdownClosed`. */
  lemma OpenCloseIdempotent(s: ComboboxState)
    ensures Open(Open(s)) == Open(s) && Close(Close(s)) == Close(s)
    ensures s.isOptionsContainerOpen ==> Open(s) == s
    ensures !s.isOptionsContainerOpen ==> Close(s) == s
    ensures !s.isOptionsContainerOpen ==>
      Open(s) == s.(isOptionsContainerOpen := true, lastArrowSelectedElem := 0,
                    events := s.events + [OptionsDropdownOpened])
    ensures s.isOptionsContainerOpen ==>
      Close(s) == s.(isOptionsContainerOpen := false, events := s.events + [OptionsDropdownClosed])
  {
  }

  /** The toggle button always flips the state and emits exactly one event. */
  lemma ToggleButtonFlips(s: ComboboxState)
    ensures HandleToggleButtonClicked(s).isOptionsContainerOpen == !s.isOptionsContainerOpen
    ensures HandleToggleButtonClicked(s).events
      == s.events + [if s.isOptionsContainerOpen then OptionsDropdownClosed else OptionsDropdownOpened]
    ensures HandleToggleButtonClicked(HandleToggleButtonClicked(s)).isOptionsContainerOpen
      == s.isOptionsContainerOpen
  {
  }

  // ---------------------------------------------------------------------------
  // Keyboard navigation

  /** Arrow keys: when closed they only open the options; when open they move
      the cursor to a position in [0, 1 + shown) and change nothing else. */
  lemma ArrowKeyResult(s: ComboboxState, down: bool, focused: bool)
    ensures var key := if down then "ArrowDown" else "ArrowUp";
      !s.isOptionsContainerOpen ==> HandleKeyDown(s, key, focused) == Open(s)
    ensures var key := if down then "ArrowDown" else "ArrowUp";
      var r := HandleKeyDown(s, key, focused);
      s.isOptionsContainerOpen ==>
        && 0 <= r.lastArrowSelectedElem <= |Visible(s.optionModels)|
        && r == s.(lastArrowSelectedElem := r.lastArrowSelectedElem)
        && r.lastArrowSelectedElem
             == ((if down then 1 else -1) + s.lastArrowSelectedElem) % (1 + |Visible(s.optionModels)|)
  {
  }

  /** A letter, Backspace or Delete typed away from the filter input sends the
      cursor back to the filter input and changes nothing else. */
  lemma TextKeyResetsCursor(s: ComboboxState, key: string)
    requires IsTextInputKey(key)
    ensures HandleKeyDown(s, key, false) == s.(lastArrowSelectedElem := 0)
    ensures HandleKeyDown(s, key, true) == s
  {
  }

  /** The state after `k` ArrowDown presses. */
  function ArrowDowns(s: ComboboxState, k: nat): ComboboxState
    decreases k
  {
    if k == 0 then s else HandleKeyDown(ArrowDowns(s, k - 1), "ArrowDown", false)
  }

  lemma {:induction false} ArrowDownsMoveCursor(s: ComboboxState, k: nat)
    requires s.isOptionsContainerOpen
    ensures ArrowDowns(s, k)
      == s.(lastArrowSelectedElem := DownPresses(s.lastArrowSelectedElem, k, |Visible(s.optionModels)|))
    decreases k
  {
    if k > 0 {
      ArrowDownsMoveCursor(s, k - 1);
    }
  }

  /** Cyclic navigation: from the filter input, one ArrowDown per element of
      `[filter input] ++ shown options` returns to exactly the same state, and
      one ArrowUp lands on the last shown option. */
  lemma ArrowNavigationCycles(s: ComboboxState)
    requires s.isOptionsContainerOpen && s.lastArrowSelectedElem == 0
    ensures ArrowDowns(s, 1 + |Visible(s.optionModels)|) == s
    ensures HandleKeyDown(s, "ArrowUp", false).lastArrowSelectedElem == |Visible(s.optionModels)|
  {
    ArrowDownsMoveCursor(s, 1 + |Visible(s.optionModels)|);
    NavigationCycles(|Visible(s.optionModels)|);
  }

  // ---------------------------------------------------------------------------
  // Selection

  /** Multi-select change of an option value `v` that exists (values distinct):
      `v` enters or leaves the checked set, no other value does, nothing but
      checked flags changes, the filter is untouched, one
      `optionChanged{v, new flag}` is emitted and the selected list is the
      checked subset. */
  lemma MultiChangeResult(s: ComboboxState, v: string, i: int)
    requires Valid(s) && s.multi && UniqueValues(s.optionModels)
    requires 0 <= i < |s.optionModels| && s.optionModels[i].value == v
    ensures var r := HandleOptionInputChange(s, v);
      && (v in CheckedValues(r.optionModels) <==> v !in CheckedValues(s.optionModels))
      && (forall w :: w != v ==> (w in CheckedValues(r.optionModels) <==> w in CheckedValues(s.optionModels)))
      && r.optionModels[i].checked == !s.optionModels[i].checked
      && r.events == s.events + [OptionChanged(v, !s.optionModels[i].checked)]
      && r.selectedOptionModels == Selected(r.optionModels)
      && r.filterTerm == s.filterTerm && r.inputText == s.inputText
      && r.isOptionsContainerOpen == s.isOptionsContainerOpen
  {
    ToggleCheckedFlipsOne(s.optionModels, v);
    var models := ToggleChecked(s.optionModels, v);
    var found := FindByValue(models, v);
    var j :| 0 <= j < |models| && models[j] == found.value && models[j].value == v;
    assert j == i;
  }

  /** Multi-select change of an existing value: the records are toggled at
      that value and one `optionChanged` carrying the new flag is emitted. */
  lemma MultiChangeStep(s: ComboboxState, v: string, i: int)
    requires s.multi && UniqueValues(s.optionModels)
    requires 0 <= i < |s.optionModels| && s.optionModels[i].value == v
    ensures HandleOptionInputChange(s, v).optionModels == ToggleChecked(s.optionModels, v)
    ensures HandleOptionInputChange(s, v).events == s.events + [OptionChanged(v, !s.optionModels[i].checked)]
  {
    var models := ToggleChecked(s.optionModels, v);
    var found := FindByValue(models, v);
    var j :| 0 <= j < |models| && models[j] == found.value && models[j].value == v;
    assert j == i;
  }

  /** Multi-select: changing the same option twice restores the records and
      emits two `optionChanged` events with opposite flags. */
  lemma MultiChangeTwice(s: ComboboxState, v: string, i: int)
    requires s.multi && UniqueValues(s.optionModels)
    requires 0 <= i < |s.optionModels| && s.optionModels[i].value == v
    ensures var r := HandleOptionInputChange(HandleOptionInputChange(s, v), v);
      && r.optionModels == s.optionModels
      && r.events == s.events + [OptionChanged(v, !s.optionModels[i].checked),
                                 OptionChanged(v, s.optionModels[i].checked)]
  {
    var s1 := HandleOptionInputChange(s, v);
    MultiChangeStep(s, v, i);
    assert UniqueValues(s1.optionModels);
    MultiChangeStep(s1, v, i);
    ToggleCheckedTwice(s.optionModels, v);
  }

  /** Single-select change of an unchecked option `v` (values distinct): that
      option alone is checked, its label is written into the filter input
      without being applied as a filter (`applyFilterOnTermChange` is cleared),
      and one `optionChanged{v, true}` is emitted. */
  lemma SingleSelectResult(s: ComboboxState, v: string, i: int)
    requires Valid(s) && !s.multi && UniqueValues(s.optionModels)
    requires 0 <= i < |s.optionModels| && s.optionModels[i].value == v && !s.optionModels[i].checked
    ensures var r := HandleOptionInputChange(s, v);
      && r.optionModels == SelectExclusive(s.optionModels, v)
      && r.selectedOptionModels == [s.optionModels[i].(checked := true)]
      && (forall k :: 0 <= k < |r.optionModels| && k != i ==> !r.optionModels[k].checked)
      && r.inputText == s.optionModels[i].labelText
      && !r.applyFilterOnTermChange
      && r.filterTerm == s.filterTerm
      && (forall k :: 0 <= k < |r.optionModels| ==> r.optionModels[k].hidden == s.optionModels[k].hidden)
      && r.events == s.events + [OptionChanged(v, true)]
      && r.isOptionsContainerOpen == s.isOptionsContainerOpen
  {
    var models := SelectExclusive(s.optionModels, v);
    SelectExclusiveResult(s.optionModels, v, i);
    FilterKeepsOnly(models, IsChecked, i);
    var sel := [models[i]];
    FilterKeepsAll(sel, IsChecked);
    var found := FindByValue(models, v);
    var j :| 0 <= j < |models| && models[j] == found.value && models[j].value == v;
    assert j == i;
  }

  /** Single-select change of the option that is already checked: the code
      flips it, so afterwards no option is checked, the filter input is
      emptied and `optionChanged{v, false}` is emitted. */
  lemma SingleReselectUnchecks(s: ComboboxState, v: string, i: int)
    requires Valid(s) && !s.multi && UniqueValues(s.optionModels)
    requires 0 <= i < |s.optionModels| && s.optionModels[i].value == v && s.optionModels[i].checked
    ensures var r := HandleOptionInputChange(s, v);
      && r.selectedOptionModels == []
      && (forall k :: 0 <= k < |r.optionModels| ==> !r.optionModels[k].checked)
      && r.inputText == ""
      && !r.applyFilterOnTermChange
      && r.filterTerm == s.filterTerm
      && (forall k :: 0 <= k < |r.optionModels| ==> r.optionModels[k].hidden == s.optionModels[k].hidden)
      && r.events == s.events + [OptionChanged(v, false)]
      && r.isOptionsContainerOpen == s.isOptionsContainerOpen
  {
    var models := SelectExclusive(s.optionModels, v);
    SelectExclusiveResult(s.optionModels, v, i);
    FilterKeepsNone(Selected(models), IsChecked);
    var found := FindByValue(models, v);
    var j :| 0 <= j < |models| && models[j] == found.value && models[j].value == v;
    assert j == i;
  }

  /** Enter on an option: in single-select mode it selects that option as a
      change does and then closes the options, emitting
      `optionsDropdownClosed` after `optionChanged` when they were open; in
      multi-select mode it is exactly a change. */
  lemma OptionEnterResult(s: ComboboxState, v: string, i: int)
    requires Valid(s) && UniqueValues(s.optionModels)
    requires 0 <= i < |s.optionModels| && s.optionModels[i].value == v && !s.optionModels[i].checked
    ensures s.multi ==> HandleOptionInputKeyDown(s, "Enter", v) == HandleOptionInputChange(s, v)
    ensures !s.multi ==> var r := HandleOptionInputKeyDown(s, "Enter", v);
      && r.selectedOptionModels == [s.optionModels[i].(checked := true)]
      && r.inputText == s.optionModels[i].labelText
      && !r.applyFilterOnTermChange
      && !r.isOptionsContainerOpen
      && r.events == s.events + [OptionChanged(v, true)]
           + (if s.isOptionsContainerOpen then [OptionsDropdownClosed] else [])
  {
    if !s.multi {
      var s1 := HandleOptionInputChange(s, v);
      SingleSelectResult(s, v, i);
      OpenCloseIdempotent(s1);
    }
  }

  /** Escape on an option only closes the options; any key other than Enter
      and Escape does nothing. */
  lemma OptionEscapeResult(s: ComboboxState, key: string, v: string)
    requires key != "Enter"
    ensures key == "Escape" ==> HandleOptionInputKeyDown(s, key, v) == Close(s)
    ensures key == "Escape" ==> !HandleOptionInputKeyDown(s, key, v).isOptionsContainerOpen
    ensures key == "Escape" ==>
      HandleOptionInputKeyDown(s, key, v).events
        == s.events + (if s.isOptionsContainerOpen then [OptionsDropdownClosed] else [])
    ensures key != "Escape" ==> HandleOptionInputKeyDown(s, key, v) == s
  {
    OpenCloseIdempotent(s);
  }

  /** A value no option has changes no record and emits nothing; in
      single-select mode every option is unchecked and the filter input
      emptied. */
  lemma ChangeUnknownValue(s: ComboboxState, v: string)
    requires forall k :: 0 <= k < |s.optionModels| ==> s.optionModels[k].value != v
    ensures s.multi ==> HandleOptionInputChange(s, v) == s.(selectedOptionModels := Selected(s.optionModels))
    ensures HandleOptionInputChange(s, v).events == s.events
    ensures !s.multi ==> var r := HandleOptionInputChange(s, v);
      && |r.optionModels| == |s.optionModels|
      && (forall k :: 0 <= k < |r.optionModels| ==> !r.optionModels[k].checked)
      && r.selectedOptionModels == []
      && r.inputText == ""
  {
    if s.multi {
      assert ToggleChecked(s.optionModels, v) == s.optionModels;
    }
  }

  /** Single-select: choosing B after A leaves exactly B checked. */
  lemma SingleSelectTwice(s: ComboboxState, a: int, b: int)
    requires Valid(s) && !s.multi && UniqueValues(s.optionModels)
    requires 0 <= a < |s.optionModels| && 0 <= b < |s.optionModels| && a != b
    requires !s.optionModels[a].checked
    ensures var r := HandleOptionInputChange(HandleOptionInputChange(s, s.optionModels[a].value),
                                             s.optionModels[b].value);
      r.selectedOptionModels == [s.optionModels[b].(checked := true)]
  {
    var s1 := HandleOptionInputChange(s, s.optionModels[a].value);
    SingleSelectResult(s, s.optionModels[a].value, a);
    HandleOptionInputChangeKeepsValid(s, s.optionModels[a].value);
    assert s1.optionModels[b] == s.optionModels[b].(checked := false);
    assert UniqueValues(s1.optionModels);
    SingleSelectResult(s1, s.optionModels[b].value, b);
  }

  /** Clearing: no option stays checked; one `optionChanged{v, false}` per
      previously selected value in list order, then one `selectionCleared`;
      the filter input is emptied, and when filtering is enabled the empty
      term is applied, which shows every option. */
  lemma ClearResult(s: ComboboxState)
    requires Valid(s)
    ensures var r := HandleSelectionClearedButtonClick(s);
      && Selected(r.optionModels) == [] && r.selectedOptionModels == []
      && r.inputText == ""
      && r.events == s.events + UnselectEvents(ValuesOf(Selected(s.optionModels))) + [SelectionCleared]
           + (if s.applyFilterOnTermChange then [FilterTermChanged(s.filterTerm, "")] else [])
      && (s.applyFilterOnTermChange ==> r.filterTerm == "" && |Visible(r.optionModels)| == |s.optionModels|)
      && (!s.applyFilterOnTermChange ==> r.filterTerm == s.filterTerm)
      && r.isOptionsContainerOpen == s.isOptionsContainerOpen
  {
    var values := ValuesOf(s.selectedOptionModels);
    var models := UncheckAll(s.optionModels);
    var s3 := Emit(WithModels(s, models), UnselectEvents(values) + [SelectionCleared]).(inputText := "");
    var r := HandleSelectionClearedButtonClick(s);
    assert r == HandleFilterInputChange(s3);
    UncheckAllSelectsNone(s.optionModels);
    assert s3.events == s.events + UnselectEvents(values) + [SelectionCleared];
    if s.applyFilterOnTermChange {
      LowerIsLower("");
      assert NormalizeTerm("") == "";
      var cleared := ApplyFilter(models, "");
      assert r.optionModels == cleared && r.filterTerm == "";
      assert r.events == s3.events + [FilterTermChanged(s.filterTerm, "")];
      ApplyFilterEmptyShowsAll(models);
      assert forall i :: 0 <= i < |cleared| ==> !cleared[i].checked;
      FilterKeepsNone(cleared, IsChecked);
    } else {
      assert r == s3;
    }
  }
}
