/** The option lists the select inputs are built from, and the
    `options.find((o) => o.value === v)` lookup they share. */
module Choices {
  import opened Wrappers

  /** One selectable option: its `label` (a Dafny keyword, hence
      `caption`), the value it emits, and extra search keywords (empty
      where a component has none). */
  datatype Choice = Choice(caption: string, value: string, keywords: seq<string>)

  /** Index of the first option whose value is `v`, or `None`
      (`options.find((o) => o.value === v)`). */
  function FindByValue(options: seq<Choice>, v: string): (r: Option<nat>)
    ensures r.None? <==> forall i :: 0 <= i < |options| ==> options[i].value != v
    ensures r.Some? ==> r.value < |options| && options[r.value].value == v
    ensures r.Some? ==> forall j :: 0 <= j < r.value ==> options[j].value != v
  {
    if options == [] then None
    else if options[0].value == v then Some(0)
    else
      match FindByValue(options[1..], v)
      case None => None
      case Some(i) => Some(i + 1)
  }

  /** `options.find((o) => o.value === v)?.label ?? v`: the label of the
      first option carrying `v`, or `v` itself when no option carries it. */
  function LabelFor(options: seq<Choice>, v: string): (l: string)
    ensures (forall i :: 0 <= i < |options| ==> options[i].value != v) ==> l == v
    ensures forall i :: 0 <= i < |options| && options[i].value == v &&
                        (forall j :: 0 <= j < i ==> options[j].value != v)
                        ==> l == options[i].caption
  {
    match FindByValue(options, v)
    case None => v
    case Some(i) => options[i].caption
  }

  /** Option values are pairwise distinct (the components key their items by
      value, so React expects this). */
  predicate DistinctValues(options: seq<Choice>) {
    forall i, j :: 0 <= i < j < |options| ==> options[i].value != options[j].value
  }

  /** With distinct values, every option's value is labelled by that option. */
  lemma LabelOfOwnValue(options: seq<Choice>, i: nat)
    requires DistinctValues(options) && i < |options|
    ensures LabelFor(options, options[i].value) == options[i].caption
  {
  }
}
