/** The single-choice combobox: a controlled value, a popover that is open
    or closed, an accent-insensitive item filter, and a select rule that
    emits `""` when the chosen option is picked again. */
module Combobox {
  import opened Wrappers
  import opened Choices
  import opened Text
  import opened CommandFilter

  /** `selectedOption ? selectedOption.label : placeholder`, where the
      selected option is the first one carrying `value`. */
  function TriggerText(options: seq<Choice>, value: string, placeholder: string): (t: string)
    ensures (forall i :: 0 <= i < |options| ==> options[i].value != value) ==> t == placeholder
    ensures forall i :: 0 <= i < |options| && options[i].value == value &&
                        (forall j :: 0 <= j < i ==> options[j].value != value)
                        ==> t == options[i].caption
  {
    match FindByValue(options, value)
    case None => placeholder
    case Some(i) => options[i].caption
  }

  /** The value handed to `onChange` when `option` is picked while the
      combobox holds `value`: picking the selected option clears it. */
  function Emitted(value: string, option: Choice): (e: string)
    ensures value == option.value ==> e == ""
    ensures value != option.value ==> e == option.value
  {
    if value == option.value then "" else option.value
  }

  /** Picking the same option twice, feeding the first emission back as the
      value, ends with the option deselected if it was not selected before,
      and selected if it was. */
  lemma PickTwice(value: string, option: Choice)
    ensures Emitted(Emitted(value, option), option) == if value == option.value then option.value else ""
  {
  }

  /** After picking an option that was not selected, the trigger shows its
      label (option values being distinct). */
  lemma PickShowsLabel(options: seq<Choice>, value: string, i: nat, placeholder: string)
    requires DistinctValues(options) && i < |options|
    requires value != options[i].value
    ensures TriggerText(options, Emitted(value, options[i]), placeholder) == options[i].caption
  {
  }

  /** After picking the selected option again, the trigger shows the
      placeholder, unless some option carries the empty value. */
  lemma RepickShowsPlaceholder(options: seq<Choice>, i: nat, placeholder: string)
    requires i < |options|
    requires forall j :: 0 <= j < |options| ==> options[j].value != ""
    ensures TriggerText(options, Emitted(options[i].value, options[i]), placeholder) == placeholder
  {
  }

  /** How an item is scored for the search box: the command item's value is
      the option's value and its keywords are its label and its value. */
  function ItemScore(option: Choice, search: string): (score: int)
    ensures score == 0 || score == 1
    ensures score == 1 <==>
      Contains(Normalize(ItemText(option.value, [option.caption, option.value])), Normalize(search))
  {
    ScoreIsNormalizedContainment(option.value, search, [option.caption, option.value]);
    Score(option.value, search, [option.caption, option.value])
  }

  /** Searching for any spelling of the option's label or of its value
      that normalises like it finds the option: accents, `đ`/`Đ` and case do
      not matter. */
  lemma SearchFindsOption(option: Choice, search: string)
    requires Normalize(search) == Normalize(option.caption) || Normalize(search) == Normalize(option.value)
    ensures ItemScore(option, search) == 1
  {
    if Normalize(search) == Normalize(option.caption) {
      KeywordSpellingIsFound(option.value, search, [option.caption, option.value], 0);
    } else {
      SameSpellingIsFound(option.value, search, [option.caption, option.value]);
    }
  }

  /** The popover's open state, the only state the combobox keeps. */
  class Popup {
    var open: bool

    constructor ()
      ensures !open
    {
      open := false;
    }

    /** The popover opening or closing on its own (`onOpenChange`). */
    method SetOpen(o: bool)
      modifies this
      ensures open == o
    {
      open := o;
    }

    /** Picking an item: emits the new value and closes the popover. */
    method Pick(value: string, option: Choice) returns (emitted: string)
      modifies this
      ensures emitted == Emitted(value, option)
      ensures !open
    {
      emitted := if value == option.value then "" else option.value;
      open := false;
    }
  }
}
