/** The two controlled multi-select inputs: the keyword-aware one with an
    accent-insensitive filter and a clear control, and the plain one. Both
    hand `onChange` the list built by `Lists.Toggle` (picking an item) or
    `Lists.Remove` (a badge's close button), and show one badge per selected
    value, or the placeholder when nothing is selected. */
module MultiSelect {
  import opened Lists
  import opened Choices
  import opened Text
  import opened CommandFilter

  /** What the trigger button shows. */
  datatype TriggerContent = Placeholder(text: string) | Badges(labels: seq<string>)

  /** The trigger: the placeholder when `value` is empty, otherwise one badge
      per selected value, labelled through the options. */
  function Trigger(options: seq<Choice>, value: seq<string>, placeholder: string): (t: TriggerContent)
    ensures t.Placeholder? <==> |value| == 0
    ensures t.Placeholder? ==> t.text == placeholder
    ensures t.Badges? ==> |t.labels| == |value|
    ensures t.Badges? ==> forall k :: 0 <= k < |value| ==>
                            (FindByValue(options, value[k]).None? ==> t.labels[k] == value[k])
    ensures t.Badges? ==> forall k :: 0 <= k < |value| && FindByValue(options, value[k]).Some? ==>
                            t.labels[k] == options[FindByValue(options, value[k]).value].caption
  {
    if |value| == 0 then Placeholder(placeholder)
    else Badges(seq(|value|, k requires 0 <= k < |value| => LabelFor(options, value[k])))
  }

  /** The clear control is rendered only for a clearable, enabled input with
      something selected. */
  predicate ClearVisible(clearable: bool, value: seq<string>, disabled: bool)
    ensures ClearVisible(clearable, value, disabled) ==> value != []
  {
    clearable && |value| > 0 && !disabled
  }

  /** Clearing emits `[]`, after which the placeholder is back and the clear
      control is gone. */
  lemma ClearResetsTrigger(options: seq<Choice>, placeholder: string, clearable: bool, disabled: bool)
    ensures Trigger(options, [], placeholder) == Placeholder(placeholder)
    ensures !ClearVisible(clearable, [], disabled)
  {
  }

  /** Removing a badge's value leaves one badge for each remaining
      occurrence of the other values. */
  lemma RemoveDropsBadges(options: seq<Choice>, value: seq<string>, v: string, placeholder: string)
    ensures Trigger(options, Remove(value, v), placeholder).Badges? ==>
              |Trigger(options, Remove(value, v), placeholder).labels| == |value| - Count(value, v)
    ensures Count(value, v) == |value| ==> Trigger(options, Remove(value, v), placeholder) == Placeholder(placeholder)
  {
  }

  /** An item's check mark shows whether its value is selected; picking the
      item flips it. */
  predicate IsChecked(value: seq<string>, option: Choice)
    ensures IsChecked(value, option) <==> Count(value, option.value) > 0
  {
    option.value in value
  }

  lemma PickFlipsCheck(value: seq<string>, option: Choice)
    ensures IsChecked(Toggle(value, option.value), option) <==> !IsChecked(value, option)
  {
  }

  /** How the keyword-aware input scores an item for its search box: the
      command item's value is the option's label and its keywords are the
      option's value followed by the option's own keywords. */
  function ItemScore(option: Choice, search: string): (score: int)
    ensures score == 0 || score == 1
    ensures score == 1 <==>
      Contains(Normalize(ItemText(option.caption, [option.value] + option.keywords)), Normalize(search))
  {
    ScoreIsNormalizedContainment(option.caption, search, [option.value] + option.keywords);
    Score(option.caption, search, [option.value] + option.keywords)
  }

  /** Searching for the option's label, value or one of its keywords, in
      any accent or case that normalises the same, finds the option. */
  lemma SearchFindsOption(option: Choice, search: string)
    requires || Normalize(search) == Normalize(option.caption)
             || Normalize(search) == Normalize(option.value)
             || exists i :: 0 <= i < |option.keywords| && Normalize(search) == Normalize(option.keywords[i])
    ensures ItemScore(option, search) == 1
  {
    var keywords := [option.value] + option.keywords;
    if Normalize(search) == Normalize(option.caption) {
      SameSpellingIsFound(option.caption, search, keywords);
    } else if Normalize(search) == Normalize(option.value) {
      KeywordSpellingIsFound(option.caption, search, keywords, 0);
    } else {
      var i :| 0 <= i < |option.keywords| && Normalize(search) == Normalize(option.keywords[i]);
      assert keywords[i + 1] == option.keywords[i];
      KeywordSpellingIsFound(option.caption, search, keywords, i + 1);
    }
  }
}
