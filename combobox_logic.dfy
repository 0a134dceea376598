/** The list logic of the `adg-combobox` component, without the DOM: the option
    records built from the `options` property, filtering by a term, the
    selection changes of multi- and single-select mode, the floored modulo
    behind arrow-key navigation and the index refocused after a chip is
    removed. */
module ComboboxLogic {
  import opened TextOps

  datatype Option<T> = None | Some(value: T)

  /** An entry of the `options` property: a plain string, or a label/value pair. */
  datatype RawOption = Text(text: string) | LabelValue(labelText: string, value: string)

  /** The record the component keeps per option (`OptionModel`). */
  datatype OptionModel = OptionModel(value: string, labelText: string, checked: bool, hidden: bool)

  /** The `selected` property: not given, one value, or a list of values. */
  datatype Preselection = Absent | OneValue(value: string) | Values(values: seq<string>)

  /** The custom events the component emits. */
  datatype Event =
    | OptionChanged(value: string, selected: bool)
    | SelectionCleared
    | FilterTermChanged(previousFilterTerm: string, filterTerm: string)
    | OptionsDropdownOpened
    | OptionsDropdownClosed

  // ---------------------------------------------------------------------------
  // Array.prototype.filter, and the two filters the component uses

  /** The elements of `s` that satisfy `keep`, in their order in `s`. */
  function Filter<T(!new)>(s: seq<T>, keep: T -> bool): (r: seq<T>)
    ensures |r| <= |s|
    ensures forall x :: x in r <==> x in s && keep(x)
    decreases |s|
  {
    if s == [] then []
    else if keep(s[0]) then [s[0]] + Filter(s[1..], keep)
    else Filter(s[1..], keep)
  }

  lemma {:induction false} FilterAppend<T(!new)>(a: seq<T>, b: seq<T>, keep: T -> bool)
    ensures Filter(a + b, keep) == Filter(a, keep) + Filter(b, keep)
    decreases |a|
  {
    if a != [] {
      assert (a + b)[0] == a[0];
      assert (a + b)[1..] == a[1..] + b;
      FilterAppend(a[1..], b, keep);
    } else {
      assert a + b == b;
    }
  }

  lemma {:induction false} FilterKeepsAll<T(!new)>(s: seq<T>, keep: T -> bool)
    requires forall i :: 0 <= i < |s| ==> keep(s[i])
    ensures Filter(s, keep) == s
    decreases |s|
  {
    if s != [] {
      FilterKeepsAll(s[1..], keep);
    }
  }

  lemma {:induction false} FilterKeepsNone<T(!new)>(s: seq<T>, keep: T -> bool)
    requires forall i :: 0 <= i < |s| ==> !keep(s[i])
    ensures Filter(s, keep) == []
    decreases |s|
  {
    if s != [] {
      FilterKeepsNone(s[1..], keep);
    }
  }

  /** When exactly one element passes, the filter yields exactly that element. */
  lemma FilterKeepsOnly<T(!new)>(s: seq<T>, keep: T -> bool, i: int)
    requires 0 <= i < |s| && keep(s[i])
    requires forall j :: 0 <= j < |s| && j != i ==> !keep(s[j])
    ensures Filter(s, keep) == [s[i]]
  {
    assert s == s[..i] + ([s[i]] + s[i + 1..]);
    FilterAppend(s[..i], [s[i]] + s[i + 1..], keep);
    FilterAppend([s[i]], s[i + 1..], keep);
    FilterKeepsNone(s[..i], keep);
    FilterKeepsNone(s[i + 1..], keep);
  }

  /** The filter keeps the relative order of the elements it keeps. */
  lemma FilterKeepsOrder<T(!new)>(s: seq<T>, keep: T -> bool, i: int, j: int)
    requires 0 <= i < j < |s| && keep(s[i]) && keep(s[j])
    ensures exists p, q ::
      (0 <= p < q < |Filter(s, keep)| && Filter(s, keep)[p] == s[i] && Filter(s, keep)[q] == s[j])
  {
    assert s == s[..j] + s[j..];
    FilterAppend(s[..j], s[j..], keep);
    var front := Filter(s[..j], keep);
    assert s[i] in s[..j];
    var p :| 0 <= p < |front| && front[p] == s[i];
    assert Filter(s[j..], keep)[0] == s[j];
    assert Filter(s, keep)[p] == s[i] && Filter(s, keep)[|front|] == s[j];
  }

  predicate IsShown(m: OptionModel) { !m.hidden }

  predicate IsChecked(m: OptionModel) { m.checked }

  /** The options not hidden by the filter, in list order. */
  function Visible(models: seq<OptionModel>): (r: seq<OptionModel>)
    ensures forall m :: m in r <==> m in models && !m.hidden
  {
    Filter(models, IsShown)
  }

  /** The checked options in list order (`watchOptionModelsHandler`). */
  function Selected(models: seq<OptionModel>): (r: seq<OptionModel>)
    ensures forall m :: m in r <==> m in models && m.checked
  {
    Filter(models, IsChecked)
  }

  /** The label of the first visible option, or '' when none is visible. */
  function FirstShownLabel(models: seq<OptionModel>): string
  {
    var shown := Visible(models);
    if |shown| > 0 then shown[0].labelText else ""
  }

  /** FirstShownLabel is the label of the first option that is not hidden,
      and '' exactly when every option is hidden. */
  lemma FirstShownLabelIsFirst(models: seq<OptionModel>, i: int)
    requires 0 <= i < |models| && !models[i].hidden
    requires forall j :: 0 <= j < i ==> models[j].hidden
    ensures FirstShownLabel(models) == models[i].labelText
  {
    assert models == models[..i] + models[i..];
    FilterAppend(models[..i], models[i..], IsShown);
    FilterKeepsNone(models[..i], IsShown);
  }

  lemma FirstShownLabelNone(models: seq<OptionModel>)
    requires forall j :: 0 <= j < |models| ==> models[j].hidden
    ensures FirstShownLabel(models) == "" && Visible(models) == []
  {
    FilterKeepsNone(models, IsShown);
  }

  /** Two lists that agree on labels and hidden flags, position by position,
      show the same number of options and the same first label. */
  lemma {:induction false} SameVisibility(a: seq<OptionModel>, b: seq<OptionModel>)
    requires |a| == |b|
    requires forall i :: 0 <= i < |a| ==> a[i].labelText == b[i].labelText && a[i].hidden == b[i].hidden
    ensures |Visible(a)| == |Visible(b)|
    ensures FirstShownLabel(a) == FirstShownLabel(b)
    decreases |a|
  {
    if a != [] {
      SameVisibility(a[1..], b[1..]);
    }
  }

  // ---------------------------------------------------------------------------
  // Building the option records (`watchOptionsHandler`)

  function ModelOf(o: RawOption): OptionModel
  {
    match o
    case Text(text) => OptionModel(Lower(text), text, false, false)
    case LabelValue(labelText, value) => OptionModel(value, labelText, false, false)
  }

  /** One unchecked, visible record per option, in the order of the options;
      a plain string is its own label and its lower-case form is the value. */
  function BuildModels(options: seq<RawOption>): (r: seq<OptionModel>)
    ensures |r| == |options|
    ensures forall i :: 0 <= i < |r| ==> !r[i].checked && !r[i].hidden
    ensures forall i :: 0 <= i < |r| && options[i].Text? ==>
      r[i].labelText == options[i].text && r[i].value == Lower(options[i].text)
    ensures forall i :: 0 <= i < |r| && options[i].LabelValue? ==>
      r[i].labelText == options[i].labelText && r[i].value == options[i].value
  {
    seq(|options|, i requires 0 <= i < |options| => ModelOf(options[i]))
  }

  /** Freshly built records are all shown and none is selected. */
  lemma BuildModelsShownUnselected(options: seq<RawOption>)
    ensures Visible(BuildModels(options)) == BuildModels(options)
    ensures Selected(BuildModels(options)) == []
    ensures |options| > 0 ==> FirstShownLabel(BuildModels(options)) == BuildModels(options)[0].labelText
  {
    FilterKeepsAll(BuildModels(options), IsShown);
    FilterKeepsNone(BuildModels(options), IsChecked);
  }

  // ---------------------------------------------------------------------------
  // Pre-selection (`componentWillLoad`)

  /** Whether the `selected` property pre-selects `value`: list membership in
      multi-select mode, string equality in single-select mode, and nothing
      when the property has the other shape or is absent. */
  predicate IsPreselected(multi: bool, selected: Preselection, value: string)
  {
    if multi && selected.Values? then value in selected.values
    else if !multi && selected.OneValue? then selected.value == value
    else false
  }

  /** Every record's `checked` flag is recomputed from the `selected` property. */
  function Preselect(models: seq<OptionModel>, multi: bool, selected: Preselection): (r: seq<OptionModel>)
    ensures |r| == |models|
    ensures forall i :: 0 <= i < |r| ==>
      r[i] == models[i].(checked := IsPreselected(multi, selected, models[i].value))
  {
    seq(|models|, i requires 0 <= i < |models| => models[i].(checked := IsPreselected(multi, selected, models[i].value)))
  }

  /** The label of the last record whose value is `value`, or `otherwise`. */
  function LastMatchingLabel(models: seq<OptionModel>, value: string, otherwise: string): string
    decreases |models|
  {
    if models == [] then otherwise
    else if models[|models| - 1].value == value then models[|models| - 1].labelText
    else LastMatchingLabel(models[..|models| - 1], value, otherwise)
  }

  predicate UniqueValues(models: seq<OptionModel>)
  {
    forall i, j :: 0 <= i < j < |models| ==> models[i].value != models[j].value
  }

  predicate AtMostOneChecked(models: seq<OptionModel>)
  {
    forall i, j :: 0 <= i < |models| && 0 <= j < |models| && models[i].checked && models[j].checked ==> i == j
  }

  /** The set of values of the checked records. */
  function CheckedValues(models: seq<OptionModel>): set<string>
  {
    set i | 0 <= i < |models| && models[i].checked :: models[i].value
  }

  function ValueSet(models: seq<OptionModel>): set<string>
  {
    set i | 0 <= i < |models| :: models[i].value
  }

  /** In multi-select mode the checked values are exactly the listed values
      that are options; in single-select mode, with distinct values, at most
      one record is checked. */
  lemma PreselectChecks(models: seq<OptionModel>, multi: bool, selected: Preselection)
    ensures multi && selected.Values? ==>
      CheckedValues(Preselect(models, multi, selected)) == ValueSet(models) * set v | v in selected.values
    ensures !multi && UniqueValues(models) ==> AtMostOneChecked(Preselect(models, multi, selected))
    ensures !multi && selected.OneValue? ==>
      CheckedValues(Preselect(models, multi, selected)) == ValueSet(models) * {selected.value}
  {
    var r := Preselect(models, multi, selected);
    if multi && selected.Values? {
      forall v | v in ValueSet(models) * set w | w in selected.values
        ensures v in CheckedValues(r)
      {
        var i :| 0 <= i < |models| && models[i].value == v;
        assert r[i].checked;
      }
    }
    if !multi && selected.OneValue? && selected.value in ValueSet(models) {
      var i :| 0 <= i < |models| && models[i].value == selected.value;
      assert r[i].checked;
    }
  }

  /** With distinct values, the last matching label is the label of the one match. */
  lemma {:induction false} LastMatchingLabelUnique(models: seq<OptionModel>, value: string, otherwise: string, i: int)
    requires UniqueValues(models)
    requires 0 <= i < |models| && models[i].value == value
    ensures LastMatchingLabel(models, value, otherwise) == models[i].labelText
    decreases |models|
  {
    if i < |models| - 1 {
      LastMatchingLabelUnique(models[..|models| - 1], value, otherwise, i);
    }
  }

  lemma {:induction false} LastMatchingLabelAbsent(models: seq<OptionModel>, value: string, otherwise: string)
    requires forall i :: 0 <= i < |models| ==> models[i].value != value
    ensures LastMatchingLabel(models, value, otherwise) == otherwise
    decreases |models|
  {
    if models != [] {
      LastMatchingLabelAbsent(models[..|models| - 1], value, otherwise);
    }
  }

  // ---------------------------------------------------------------------------
  // Filtering (`handleFilterInputChange`)

  /** The stored filter term: the input lower-cased, then trimmed. */
  function NormalizeTerm(input: string): string
  {
    Trim(Lower(input))
  }

  /** The stored term has no upper-case letter, no white space at either end,
      and normalising it again changes nothing. */
  lemma NormalizeTermIsNormal(input: string)
    ensures NoUpper(NormalizeTerm(input))
    ensures NormalizeTerm(input) == [] || !IsWhitespace(NormalizeTerm(input)[0])
    ensures NormalizeTerm(input) == [] || !IsWhitespace(NormalizeTerm(input)[|NormalizeTerm(input)| - 1])
    ensures NormalizeTerm(NormalizeTerm(input)) == NormalizeTerm(input)
  {
    var low := Lower(input);
    LowerIsLower(input);
    TrimIsSlice(low);
    var t := Trim(low);
    assert NoUpper(t);
    LowerOfNoUpper(t);
    TrimIdempotent(low);
  }

  /** Each record is hidden exactly when its lower-case label does not include
      the term; value, label, checked flag and order stay as they were. */
  function ApplyFilter(models: seq<OptionModel>, term: string): (r: seq<OptionModel>)
    ensures |r| == |models|
    ensures forall i :: 0 <= i < |r| ==>
      r[i].value == models[i].value && r[i].labelText == models[i].labelText && r[i].checked == models[i].checked
    ensures forall i :: 0 <= i < |r| ==> (r[i].hidden <==> !Includes(Lower(models[i].labelText), term))
  {
    seq(|models|, i requires 0 <= i < |models| =>
      models[i].(hidden := !Includes(Lower(models[i].labelText), term)))
  }

  /** A record is hidden exactly when the term occurs nowhere in its lower-case label. */
  lemma ApplyFilterHidesNonMatching(models: seq<OptionModel>, term: string, i: int)
    requires 0 <= i < |models|
    ensures ApplyFilter(models, term)[i].hidden <==> !exists k :: OccursAt(Lower(models[i].labelText), term, k)
  {
    IncludesIff(Lower(models[i].labelText), term);
  }

  /** Filtering changes no value and no checked flag, so it keeps distinct
      values and at most one checked record. */
  lemma ApplyFilterKeepsChecks(models: seq<OptionModel>, term: string)
    ensures UniqueValues(ApplyFilter(models, term)) <==> UniqueValues(models)
    ensures AtMostOneChecked(ApplyFilter(models, term)) <==> AtMostOneChecked(models)
  {
  }

  /** Filtering depends only on the term, not on an earlier filter. */
  lemma ApplyFilterForgetsEarlierFilter(models: seq<OptionModel>, t1: string, t2: string)
    ensures ApplyFilter(ApplyFilter(models, t1), t2) == ApplyFilter(models, t2)
  {
  }

  /** The empty term shows every option. */
  lemma ApplyFilterEmptyShowsAll(models: seq<OptionModel>)
    ensures Visible(ApplyFilter(models, "")) == ApplyFilter(models, "")
    ensures |Visible(ApplyFilter(models, ""))| == |models|
  {
    var r := ApplyFilter(models, "");
    forall i | 0 <= i < |r| ensures IsShown(r[i]) {
      IncludesEmpty(Lower(models[i].labelText));
    }
    FilterKeepsAll(r, IsShown);
  }

  // ---------------------------------------------------------------------------
  // Selection changes (`handleOptionInputChange`, `handleSelectionClearedButtonClick`)

  /** Multi-select: the records with the given value have their checked flag
      flipped; every other record is left as it is. */
  function ToggleChecked(models: seq<OptionModel>, value: string): (r: seq<OptionModel>)
    ensures |r| == |models|
    ensures forall i :: 0 <= i < |r| && models[i].value != value ==> r[i] == models[i]
    ensures forall i :: 0 <= i < |r| && models[i].value == value ==>
      r[i] == models[i].(checked := !models[i].checked)
  {
    seq(|models|, i requires 0 <= i < |models| =>
      if models[i].value == value then models[i].(checked := !models[i].checked) else models[i])
  }

  /** Toggling the same value twice restores the records. */
  lemma ToggleCheckedTwice(models: seq<OptionModel>, value: string)
    ensures ToggleChecked(ToggleChecked(models, value), value) == models
  {
  }

  /** With distinct values, toggling adds the value to the checked set when it
      was unchecked and removes it when it was checked; no other value changes. */
  lemma ToggleCheckedFlipsOne(models: seq<OptionModel>, value: string)
    requires UniqueValues(models)
    ensures value in ValueSet(models) ==>
      (value in CheckedValues(ToggleChecked(models, value)) <==> value !in CheckedValues(models))
    ensures forall w :: w != value ==>
      (w in CheckedValues(ToggleChecked(models, value)) <==> w in CheckedValues(models))
  {
    var r := ToggleChecked(models, value);
    forall w | w != value ensures w in CheckedValues(r) <==> w in CheckedValues(models) {
      if w in CheckedValues(r) {
        var i :| 0 <= i < |r| && r[i].checked && r[i].value == w;
        assert models[i].checked;
      }
      if w in CheckedValues(models) {
        var i :| 0 <= i < |models| && models[i].checked && models[i].value == w;
        assert r[i].checked;
      }
    }
    if value in ValueSet(models) {
      var i :| 0 <= i < |models| && models[i].value == value;
      assert forall j :: 0 <= j < |models| && models[j].value == value ==> j == i;
      if models[i].checked {
        assert value in CheckedValues(models);
      } else {
        assert r[i].checked;
      }
    }
  }

  /** Single-select: the records with the given value have their checked flag
      flipped, every other record is unchecked. */
  function SelectExclusive(models: seq<OptionModel>, value: string): (r: seq<OptionModel>)
    ensures |r| == |models|
    ensures forall i :: 0 <= i < |r| ==>
      r[i].value == models[i].value && r[i].labelText == models[i].labelText && r[i].hidden == models[i].hidden
    ensures forall i :: 0 <= i < |r| ==>
      (r[i].checked <==> models[i].value == value && !models[i].checked)
  {
    seq(|models|, i requires 0 <= i < |models| =>
      models[i].(checked := if models[i].value == value then !models[i].checked else false))
  }

  /** With distinct values, single-select leaves at most one option checked:
      the target when it was unchecked, and none when it was already checked. */
  lemma SelectExclusiveResult(models: seq<OptionModel>, value: string, i: int)
    requires UniqueValues(models)
    requires 0 <= i < |models| && models[i].value == value
    ensures AtMostOneChecked(SelectExclusive(models, value))
    ensures !models[i].checked ==> Selected(SelectExclusive(models, value)) == [SelectExclusive(models, value)[i]]
    ensures models[i].checked ==> Selected(SelectExclusive(models, value)) == []
  {
    var r := SelectExclusive(models, value);
    if !models[i].checked {
      FilterKeepsOnly(r, IsChecked, i);
    } else {
      FilterKeepsNone(r, IsChecked);
    }
  }

  /** Single-select never leaves two options checked when the values are distinct. */
  lemma SelectExclusiveAtMostOne(models: seq<OptionModel>, value: string)
    requires UniqueValues(models)
    ensures AtMostOneChecked(SelectExclusive(models, value))
  {
  }

  /** Every record unchecked. */
  function UncheckAll(models: seq<OptionModel>): (r: seq<OptionModel>)
    ensures |r| == |models|
    ensures forall i :: 0 <= i < |r| ==> r[i] == models[i].(checked := false)
  {
    seq(|models|, i requires 0 <= i < |models| => models[i].(checked := false))
  }

  lemma UncheckAllSelectsNone(models: seq<OptionModel>)
    ensures Selected(UncheckAll(models)) == []
    ensures CheckedValues(UncheckAll(models)) == {}
  {
    FilterKeepsNone(UncheckAll(models), IsChecked);
  }

  function ValuesOf(models: seq<OptionModel>): (r: seq<string>)
    ensures |r| == |models|
    ensures forall i :: 0 <= i < |r| ==> r[i] == models[i].value
  {
    seq(|models|, i requires 0 <= i < |models| => models[i].value)
  }

  /** The first record with the given value (`Array.prototype.find`). */
  function FindByValue(models: seq<OptionModel>, value: string): (r: Option<OptionModel>)
    ensures r.None? <==> forall i :: 0 <= i < |models| ==> models[i].value != value
    ensures r.Some? ==> exists i ::
      (0 <= i < |models| && models[i] == r.value && models[i].value == value
       && forall j :: 0 <= j < i ==> models[j].value != value)
    decreases |models|
  {
    if models == [] then None
    else if models[0].value == value then Some(models[0])
    else
      FindByValue(models[1..], value)
  }

  /** The `optionChanged` event after a change of `value`: the record's new
      checked flag, or no event when no record has that value. */
  function ChangeEvents(models: seq<OptionModel>, value: string): (r: seq<Event>)
  {
    match FindByValue(models, value)
    case None => []
    case Some(m) => [OptionChanged(value, m.checked)]
  }

  /** One `optionChanged{value, selected: false}` per value, in order. */
  function UnselectEvents(values: seq<string>): (r: seq<Event>)
    ensures |r| == |values|
    ensures forall i :: 0 <= i < |r| ==> r[i] == OptionChanged(values[i], false)
  {
    seq(|values|, i requires 0 <= i < |values| => OptionChanged(values[i], false))
  }

  // ---------------------------------------------------------------------------
  // Arrow-key navigation (`modulo`)

  /** JavaScript's `%` on integers: the remainder of the division truncated
      toward zero, which takes the sign of the dividend. */
  function JsRem(a: int, n: int): (r: int)
    requires n > 0
    ensures -n < r < n
    ensures a >= 0 ==> r >= 0
    ensures a < 0 ==> r <= 0
    ensures a >= 0 || a % n == 0 ==> r == a % n
    ensures a < 0 && a % n != 0 ==> r == a % n - n
  {
    if a >= 0 then a % n
    else
      var q, t := (-a) / n, (-a) % n;
      assert -a == q * n + t;
      if t == 0 then
        ModUnique(a, n, -q, 0);
        -t
      else
        ModUnique(a, n, -q - 1, n - t);
        -t
  }

  /** Floored `%` is determined by any quotient/remainder pair. */
  lemma ModUnique(x: int, n: int, q: int, r: int)
    requires n > 0 && 0 <= r < n && x == q * n + r
    ensures x % n == r
  {
    var q0, r0 := x / n, x % n;
    assert x == q0 * n + r0;
    var d := q - q0;
    assert d * n == r0 - r by {
      assert q * n - q0 * n == d * n;
    }
    if d >= 1 {
      MulAtLeast(d, n);
    } else if d <= -1 {
      MulAtLeast(-d, n);
    }
  }

  lemma MulAtLeast(d: int, n: int)
    requires d >= 1 && n > 0
    ensures d * n >= n
  {
  }

  /** `modulo(a, n)` = `((a % n) + n) % n` with JavaScript's `%`: the floored
      remainder, which lies in [0, n) and agrees with `a` modulo `n`. */
  function Modulo(a: int, n: int): (r: int)
    requires n > 0
    ensures 0 <= r < n
    ensures r == a % n
  {
    var m := JsRem(a, n);
    assert m + n > 0 && JsRem(m + n, n) == a % n by {
      if a >= 0 {
        ModUnique(m + n, n, 1, m);
      } else {
        var q, t := (-a) / n, (-a) % n;
        assert -a == q * n + t;
        if t == 0 {
          ModUnique(n, n, 1, 0);
          ModUnique(a, n, -q, 0);
        } else {
          ModUnique(n - t, n, 0, n - t);
          assert a == (-q - 1) * n + (n - t);
          ModUnique(a, n, -q - 1, n - t);
        }
      }
    }
    JsRem(m + n, n)
  }

  /** Stepping one further and then reducing is reducing one further. */
  lemma ModSucc(x: int, n: int)
    requires n > 0
    ensures (x % n + 1) % n == (x + 1) % n
  {
    var q, m := x / n, x % n;
    assert x + 1 == q * n + (m + 1);
    if m + 1 < n {
      ModUnique(m + 1, n, 0, m + 1);
      ModUnique(x + 1, n, q, m + 1);
    } else {
      ModUnique(m + 1, n, 1, 0);
      assert x + 1 == (q + 1) * n + 0;
      ModUnique(x + 1, n, q + 1, 0);
    }
  }

  /** The cursor after one arrow key over `[filter input] ++ shown options`:
      index 0 is the filter input, index k > 0 the k-th shown option. */
  function NextCursor(cursor: int, down: bool, shownCount: nat): (r: int)
    ensures 0 <= r <= shownCount
  {
    Modulo((if down then 1 else -1) + cursor, 1 + shownCount)
  }

  /** The cursor after `k` ArrowDown presses. */
  function DownPresses(cursor: int, k: nat, shownCount: nat): int
    decreases k
  {
    if k == 0 then cursor else NextCursor(DownPresses(cursor, k - 1, shownCount), true, shownCount)
  }

  /** `k` ArrowDown presses move a cursor in range by `k` places, wrapping round. */
  lemma {:induction false} DownPressesWrap(cursor: int, k: nat, shownCount: nat)
    requires 0 <= cursor <= shownCount
    ensures DownPresses(cursor, k, shownCount) == (cursor + k) % (1 + shownCount)
    decreases k
  {
    var n := 1 + shownCount;
    if k > 0 {
      DownPressesWrap(cursor, k - 1, shownCount);
      ModSucc(cursor + k - 1, n);
    }
  }

  /** From the filter input, one press per element returns to the filter input;
      ArrowUp from the filter input lands on the last shown option, and
      ArrowDown from the last shown option returns to the filter input. */
  lemma NavigationCycles(shownCount: nat)
    ensures DownPresses(0, 1 + shownCount, shownCount) == 0
    ensures NextCursor(0, false, shownCount) == shownCount
    ensures NextCursor(shownCount, true, shownCount) == 0
  {
    var n := 1 + shownCount;
    DownPressesWrap(0, n, shownCount);
    ModUnique(n, n, 1, 0);
    ModUnique(-1, n, -1, shownCount);
  }

  // ---------------------------------------------------------------------------
  // Chip removal (`handleOptionSelectedButtonClick`)

  /** Which chip button receives focus after the chip at `clickedIndex` was
      activated, given the number of chip buttons: -1 stands for the filter
      input. */
  function RefocusIndex(buttonCount: int, clickedIndex: int): (r: int)
    ensures r == -1 || r == clickedIndex || r == clickedIndex - 1
    ensures 0 <= clickedIndex < buttonCount ==> (r == -1 <==> buttonCount == 1)
    ensures 0 <= clickedIndex < buttonCount && r != -1 ==> 0 <= r < buttonCount - 1
    ensures 1 < buttonCount && 0 <= clickedIndex < buttonCount - 1 ==> r == clickedIndex
    ensures 1 < buttonCount && clickedIndex == buttonCount - 1 ==> r == clickedIndex - 1
  {
    if buttonCount == 1 then -1
    else if clickedIndex < buttonCount - 1 then clickedIndex
    else clickedIndex - 1
  }
}
