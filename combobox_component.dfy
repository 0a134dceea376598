/** The `adg-combobox` component as an object whose handlers update its fields
    in place, as the source does. Every handler is proved to produce exactly
    the state the matching transition of ComboboxMachine describes, and the
    handlers the page can trigger keep the component's invariant. */
module ComboboxComponent {
  import opened ComboboxLogic
  import ComboboxMachine

  class AdgCombobox {
    /** The `multi` and `selected` properties. */
    const multi: bool
    const selected: Preselection

    var optionModels: seq<OptionModel>
    var selectedOptionModels: seq<OptionModel>
    var filterTerm: string
    /** The value of the filter input element. */
    var inputText: string
    var isOptionsContainerOpen: bool
    /** Cursor over `[filter input] ++ shown options`; 0 is the filter input. */
    var lastArrowSelectedElem: int
    var applyFilterOnTermChange: bool
    var numberOfShownOptions: int
    var filteredOptionsStartingWith: string
    /** Every custom event emitted so far, oldest first. */
    var events: seq<Event>

    function State(): ComboboxMachine.ComboboxState
      reads this
    {
      ComboboxMachine.ComboboxState(multi, selected, optionModels, selectedOptionModels, filterTerm,
        inputText, isOptionsContainerOpen, lastArrowSelectedElem, applyFilterOnTermChange,
        numberOfShownOptions, filteredOptionsStartingWith, events)
    }

    predicate Valid()
      reads this
    {
      ComboboxMachine.Valid(State())
    }

    constructor (multi: bool, selected: Preselection)
      ensures Valid()
      ensures State() == ComboboxMachine.Initial(multi, selected)
    {
      this.multi := multi;
      this.selected := selected;
      optionModels := [];
      selectedOptionModels := [];
      filterTerm := "";
      inputText := "";
      isOptionsContainerOpen := false;
      lastArrowSelectedElem := 0;
      applyFilterOnTermChange := true;
      numberOfShownOptions := 0;
      filteredOptionsStartingWith := "";
      events := [];
    }

    /** `watchOptionModelsHandler`. */
    method WatchOptionModelsHandler()
      modifies this`selectedOptionModels
      ensures selectedOptionModels == Selected(optionModels)
    {
      selectedOptionModels := Filter(optionModels, IsChecked);
    }

    /** An assignment of `optionModels`, which triggers its watcher. */
    method SetOptionModels(models: seq<OptionModel>)
      modifies this
      ensures State() == ComboboxMachine.WithModels(old(State()), models)
    {
      optionModels := models;
      WatchOptionModelsHandler();
    }

    method Emit(e: Event)
      modifies this`events
      ensures events == old(events) + [e]
    {
      events := events + [e];
    }

    /** `watchOptionsHandler`; the source throws on an empty list. */
    method WatchOptionsHandler(newValue: seq<RawOption>)
      requires Valid() && |newValue| > 0
      modifies this
      ensures Valid()
      ensures State() == ComboboxMachine.WatchOptions(old(State()), newValue)
    {
      numberOfShownOptions := |newValue|;
      SetOptionModels(BuildModels(newValue));
      filteredOptionsStartingWith := optionModels[0].labelText;
      ComboboxMachine.StepKeepsValid(old(State()), ComboboxMachine.OptionsSet(newValue));
    }

    /** The `map` of `componentWillLoad`: each record checked as the
        `selected` property says, and the filter term that the last match sets
        in single-select mode. */
    method PreselectedModels() returns (models: seq<OptionModel>, term: string)
      ensures models == Preselect(optionModels, multi, selected)
      ensures term == if !multi && selected.OneValue?
        then LastMatchingLabel(optionModels, selected.value, filterTerm)
        else filterTerm
    {
      models := [];
      term := filterTerm;
      var i := 0;
      while i < |optionModels|
        invariant 0 <= i <= |optionModels|
        invariant |models| == i
        invariant forall k :: 0 <= k < i ==>
          models[k] == optionModels[k].(checked := IsPreselected(multi, selected, optionModels[k].value))
        invariant term == if !multi && selected.OneValue?
          then LastMatchingLabel(optionModels[..i], selected.value, filterTerm)
          else filterTerm
      {
        var optionModel := optionModels[i];
        var checked := false;
        if multi && selected.Values? {
          checked := optionModel.value in selected.values;
        } else if !multi && selected.OneValue? {
          checked := selected.value == optionModel.value;
          if checked {
            term := optionModel.labelText;
          }
        }
        assert optionModels[..i + 1][..i] == optionModels[..i];
        models := models + [optionModel.(checked := checked)];
        i := i + 1;
      }
      assert optionModels[..i] == optionModels;
    }

    /** `componentWillLoad` (translator loading left out), then the first
        render writing `filterTerm` into the filter input. */
    method ComponentWillLoad()
      requires Valid()
      modifies this
      ensures Valid()
      ensures State() == ComboboxMachine.ComponentWillLoad(old(State()))
    {
      ghost var s0 := State();
      var models, term := PreselectedModels();
      filterTerm := term;
      SetOptionModels(models);
      inputText := filterTerm;
      assert State() == ComboboxMachine.ComponentWillLoad(s0);
      ComboboxMachine.ComponentWillLoadKeepsValid(s0);
    }

    /** `openOptionsContainer` (the DOM selection of the input left out). */
    method OpenOptionsContainer()
      modifies this
      ensures State() == ComboboxMachine.Open(old(State()))
    {
      if isOptionsContainerOpen {
        return;
      }
      isOptionsContainerOpen := true;
      lastArrowSelectedElem := 0;
      Emit(OptionsDropdownOpened);
    }

    /** `closeOptionsContainer`. */
    method CloseOptionsContainer()
      modifies this
      ensures State() == ComboboxMachine.Close(old(State()))
    {
      if !isOptionsContainerOpen {
        return;
      }
      isOptionsContainerOpen := false;
      Emit(OptionsDropdownClosed);
    }

    /** `handleFilterInputChange`, the `input` listener of the filter input. */
    method HandleFilterInputChange()
      modifies this
      ensures State() == ComboboxMachine.HandleFilterInputChange(old(State()))
    {
      if !applyFilterOnTermChange {
        return;
      }
      var term := NormalizeTerm(inputText);
      var previousFilterTerm := filterTerm;
      filterTerm := term;
      SetOptionModels(ApplyFilter(optionModels, term));
      var shownOptions := Visible(optionModels);
      numberOfShownOptions := |shownOptions|;
      filteredOptionsStartingWith := if |shownOptions| > 0 then shownOptions[0].labelText else "";
      Emit(FilterTermChanged(previousFilterTerm, term));
      if term != "" {
        OpenOptionsContainer();
      }
    }

    /** `setInputValue`: set the filter input's value and dispatch `input`. */
    method SetInputValue(val: string)
      modifies this
      ensures State() == ComboboxMachine.SetInputValue(old(State()), val)
    {
      inputText := val;
      HandleFilterInputChange();
    }

    /** The user edits the filter input. */
    method FilterInputEdited(text: string)
      requires Valid()
      modifies this
      ensures Valid()
      ensures State() == ComboboxMachine.SetInputValue(old(State()), text)
    {
      SetInputValue(text);
      ComboboxMachine.StepKeepsValid(old(State()), ComboboxMachine.FilterInput(text));
    }

    /** `handleToggleAvailableOptionsButtonClicked`. */
    method HandleToggleAvailableOptionsButtonClicked()
      requires Valid()
      modifies this
      ensures Valid()
      ensures State() == ComboboxMachine.HandleToggleButtonClicked(old(State()))
    {
      if isOptionsContainerOpen {
        CloseOptionsContainer();
      } else {
        OpenOptionsContainer();
      }
    }

    /** `handleFilterInputClick`. */
    method HandleFilterInputClick()
      requires Valid()
      modifies this
      ensures Valid()
      ensures State() == ComboboxMachine.HandleFilterInputClick(old(State()))
    {
      OpenOptionsContainer();
    }

    /** `handleDocumentClick`; whether the click or focus landed inside the
        widget is given. */
    method HandleDocumentClick(insideWidget: bool)
      requires Valid()
      modifies this
      ensures Valid()
      ensures State() == ComboboxMachine.HandleDocumentClick(old(State()), insideWidget)
    {
      if !insideWidget {
        CloseOptionsContainer();
      }
    }

    /** `handleFilterInputKeyDown`. */
    method HandleFilterInputKeyDown(key: string)
      requires Valid()
      modifies this
      ensures Valid()
      ensures State() == ComboboxMachine.HandleFilterInputKeyDown(old(State()), key)
    {
      if key == "Escape" {
        CloseOptionsContainer();
      }
      applyFilterOnTermChange := true;
    }

    /** `displaySelectedItems`. */
    method DisplaySelectedItems()
      modifies this
      ensures State() == ComboboxMachine.DisplaySelectedItems(old(State()))
    {
      if !multi {
        var checked := Selected(selectedOptionModels);
        SetInputValue(if |checked| > 0 then checked[0].labelText else "");
      }
    }

    /** `handleOptionInputChange`, the `input` listener of an option. */
    method HandleOptionInputChange(value: string)
      requires Valid()
      modifies this
      ensures Valid()
      ensures State() == ComboboxMachine.HandleOptionInputChange(old(State()), value)
    {
      if multi {
        SetOptionModels(ToggleChecked(optionModels, value));
      } else {
        applyFilterOnTermChange := false;
        SetOptionModels(SelectExclusive(optionModels, value));
      }
      var option := FindByValue(optionModels, value);
      if option.Some? {
        Emit(OptionChanged(value, option.value.checked));
      }
      DisplaySelectedItems();
      ComboboxMachine.HandleOptionInputChangeKeepsValid(old(State()), value);
    }

    /** `handleOptionInputKeyDown`. */
    method HandleOptionInputKeyDown(key: string, value: string)
      requires Valid()
      modifies this
      ensures Valid()
      ensures State() == ComboboxMachine.HandleOptionInputKeyDown(old(State()), key, value)
    {
      if key == "Enter" {
        HandleOptionInputChange(value);
        if !multi {
          CloseOptionsContainer();
        }
      }
      if key == "Escape" {
        CloseOptionsContainer();
      }
      ComboboxMachine.OptionInputKeyDownKeepsValid(old(State()), key, value);
    }

    /** `handleOptionInputClick`; whether the event has pointer coordinates
        is given. */
    method HandleOptionInputClick(hasPointerCoordinates: bool)
      requires Valid()
      modifies this
      ensures Valid()
      ensures State() == ComboboxMachine.HandleOptionInputClick(old(State()), hasPointerCoordinates)
    {
      if hasPointerCoordinates {
        if !multi {
          CloseOptionsContainer();
        }
      }
    }

    /** `handleKeyDown` on the component; whether the filter input has the
        focus is given. */
    method HandleKeyDown(key: string, filterInputFocused: bool)
      requires Valid()
      modifies this
      ensures Valid()
      ensures State() == ComboboxMachine.HandleKeyDown(old(State()), key, filterInputFocused)
    {
      if key == "ArrowDown" || key == "ArrowUp" {
        if !isOptionsContainerOpen {
          OpenOptionsContainer();
          return;
        }
        var direction := if key == "ArrowDown" then 1 else -1;
        var shownCount := |Visible(optionModels)|;
        var index := Modulo(direction + lastArrowSelectedElem, 1 + shownCount);
        lastArrowSelectedElem := index;
      }
      if ComboboxMachine.IsTextInputKey(key) && !filterInputFocused {
        lastArrowSelectedElem := 0;
      }
    }

    /** The loop of `handleSelectionClearedButtonClick` that reports every
        previously selected value as unselected. */
    method EmitUnselected(values: seq<string>)
      modifies this`events
      ensures events == old(events) + UnselectEvents(values)
    {
      for i := 0 to |values|
        invariant events == old(events) + UnselectEvents(values[..i])
      {
        Emit(OptionChanged(values[i], false));
        assert UnselectEvents(values[..i + 1]) == UnselectEvents(values[..i]) + [OptionChanged(values[i], false)];
      }
      assert values[..|values|] == values;
    }

    /** `handleSelectionClearedButtonClick`. */
    method HandleSelectionClearedButtonClick()
      requires Valid()
      modifies this
      ensures Valid()
      ensures State() == ComboboxMachine.HandleSelectionClearedButtonClick(old(State()))
    {
      ghost var s0 := State();
      var selectedOptionValues := ValuesOf(selectedOptionModels);
      SetOptionModels(UncheckAll(optionModels));
      EmitUnselected(selectedOptionValues);
      Emit(SelectionCleared);
      assert State() == ComboboxMachine.Emit(ComboboxMachine.WithModels(s0, UncheckAll(s0.optionModels)),
        UnselectEvents(selectedOptionValues) + [SelectionCleared]);
      SetInputValue("");
      ComboboxMachine.ClearKeepsValid(s0);
    }

    /** `handleOptionSelectedButtonClick`: the chip's option is changed, and
        the index of the chip to focus afterwards (-1: the filter input) is
        returned, computed from the number of chip buttons when the deferred
        callback runs. */
    method HandleOptionSelectedButtonClick(value: string, clickedIndex: int, buttonCount: int)
      returns (nextIndex: int)
      requires Valid()
      modifies this
      ensures Valid()
      ensures State() == ComboboxMachine.HandleOptionSelectedButtonClick(old(State()), value)
      ensures nextIndex == RefocusIndex(buttonCount, clickedIndex)
    {
      HandleOptionInputChange(value);
      nextIndex := RefocusIndex(buttonCount, clickedIndex);
    }
  }
}
