/** Worked examples taken from the component's end-to-end tests, stated as
    lemmas over the transition functions. */
module Scenarios {
  import opened ComboboxLogic
  import opened ComboboxMachine
  import opened Locale

  /** Multi-select, nothing checked yet: checking "soccer" checks it alone
      and emits `optionChanged{soccer, true}`. */
  lemma CheckSoccer(s: ComboboxState, i: int, j: int)
    requires s.multi && UniqueValues(s.optionModels)
    requires 0 <= i < |s.optionModels| && s.optionModels[i].value == "soccer"
    requires 0 <= j < |s.optionModels| && s.optionModels[j].value == "movies"
    requires CheckedValues(s.optionModels) == {}
    ensures var s1 := HandleOptionInputChange(s, "soccer");
      && s1.multi && UniqueValues(s1.optionModels)
      && s1.events == s.events + [OptionChanged("soccer", true)]
      && CheckedValues(s1.optionModels) == {"soccer"}
      && j < |s1.optionModels| && s1.optionModels[j].value == "movies" && !s1.optionModels[j].checked
  {
    assert s.optionModels[i].checked ==> "soccer" in CheckedValues(s.optionModels);
    assert s.optionModels[j].checked ==> "movies" in CheckedValues(s.optionModels);
    var s1 := HandleOptionInputChange(s, "soccer");
    MultiChangeStep(s, "soccer", i);
    var m := ToggleChecked(s.optionModels, "soccer");
    assert s1.optionModels == m && s1.multi;
    ToggleCheckedFlipsOne(s.optionModels, "soccer");
    assert "soccer" in ValueSet(s.optionModels);
    assert forall k :: 0 <= k < |m| ==> m[k].value == s.optionModels[k].value;
    assert m[j] == s.optionModels[j];
  }

  /** Multi-select: check "soccer", check "movies", uncheck "movies". The
      three `optionChanged` events are emitted in that order and only
      "soccer" stays selected. */
  lemma MultiSelectThreeChanges(s: ComboboxState, i: int, j: int)
    requires s.multi && UniqueValues(s.optionModels)
    requires 0 <= i < |s.optionModels| && s.optionModels[i].value == "soccer"
    requires 0 <= j < |s.optionModels| && s.optionModels[j].value == "movies"
    requires CheckedValues(s.optionModels) == {}
    ensures var r := HandleOptionInputChange(HandleOptionInputChange(HandleOptionInputChange(
                       s, "soccer"), "movies"), "movies");
      && r.events == s.events + [OptionChanged("soccer", true), OptionChanged("movies", true),
                                 OptionChanged("movies", false)]
      && CheckedValues(r.optionModels) == {"soccer"}
  {
    CheckSoccer(s, i, j);
    var s1 := HandleOptionInputChange(s, "soccer");
    MultiChangeTwice(s1, "movies", j);
    var e1, e2, e3 := OptionChanged("soccer", true), OptionChanged("movies", true), OptionChanged("movies", false);
    AppendThree(s.events, e1, e2, e3);
  }

  lemma AppendThree<T>(a: seq<T>, x: T, y: T, z: T)
    ensures a + [x] + [y, z] == a + [x, y, z]
  {
  }

  /** A key the table does not know is shown as it is, even with data. */
  lemma TranslateUnknownKey()
    ensures Translate(map[], "open", [Obj(map["optionslabel" := Str("Hobbies")])]) == Ok("open")
  {
    NoDollarNoPlaceholder("open");
    TemplateWithoutPlaceholder("open", Obj(map["optionslabel" := Str("Hobbies")]));
  }
}
