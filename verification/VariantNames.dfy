/**
 Variant names of an upgraded enum (crates/summer-mcp/src/tools/entity_enum_upgrader.rs:486-522,
 575-588). How a label or a value suggests a name is a parameter; names are made unique by
 counting up from 2.
 */
module VariantNames {
  import opened Wrappers
  import opened Counting
  import opened Decimal

  datatype NameSource = Override | LabelAscii | ValueFallback

  datatype OptionSpec = OptionSpec(labelText: string, value: string)

  datatype VariantPlan = VariantPlan(labelText: string, value: string, variantName: string, source: NameSource)

  // How names are suggested: by the meaning of a label, by its ASCII words, by the value and position.
  datatype Suggestions = Suggestions(
    semantic: string -> Option<string>,
    ascii: string -> Option<string>,
    fallback: (string, nat) -> string)

  function Candidate(
      option: OptionSpec, index: nat, overrides: Option<map<string, string>>, suggest: Suggestions):
    (string, NameSource)
  {
    if overrides.Some? && option.value in overrides.value then (overrides.value[option.value], Override)
    else if suggest.semantic(option.labelText).Some? then (suggest.semantic(option.labelText).value, LabelAscii)
    else if suggest.ascii(option.labelText).Some? then (suggest.ascii(option.labelText).value, LabelAscii)
    else (suggest.fallback(option.value, index), ValueFallback)
  }

  // Where the name of an option comes from: an override for its value before all else, then the meaning of
  // its label, then the ASCII words of its label, and its value and position when nothing else is left.
  ghost predicate Suggests(
      option: OptionSpec, index: nat, overrides: Option<map<string, string>>, suggest: Suggestions, name: string,
      source: NameSource)
  {
    var overridden := overrides.Some? && option.value in overrides.value;
    var meaning, words := suggest.semantic(option.labelText), suggest.ascii(option.labelText);
    match source
    case Override => overridden && name == overrides.value[option.value]
    case LabelAscii => !overridden && (meaning == Some(name) || (meaning.None? && words == Some(name)))
    case ValueFallback => !overridden && meaning.None? && words.None? && name == suggest.fallback(option.value, index)
  }

  // The name a candidate gets when some names are used: itself if free, else the first free number from 2 on.
  ghost predicate IsNameFor(candidate: string, used: set<string>, name: string) {
    && name !in used
    && if candidate !in used then name == candidate
       else
         exists k: nat :: k >= 2 && name == candidate + NatText(k)
                          && forall j: nat :: 2 <= j < k ==> candidate + NatText(j) in used
  }

  // The plan of one option when some names are used.
  ghost predicate IsPlanFor(
      option: OptionSpec, index: nat, overrides: Option<map<string, string>>, suggest: Suggestions,
      used: set<string>, plan: VariantPlan)
  {
    && plan.labelText == option.labelText && plan.value == option.value
    && exists name ::
         Suggests(option, index, overrides, suggest, name, plan.source) && IsNameFor(name, used, plan.variantName)
  }

  lemma NumberedInjective(candidate: string, i: nat, j: nat)
    requires candidate + NatText(i) == candidate + NatText(j)
    ensures i == j
  {
    assert NatText(i) == (candidate + NatText(i))[|candidate|..];
    assert NatText(j) == (candidate + NatText(j))[|candidate|..];
    NatTextInjective(i, j);
  }

  // Pigeonhole: no more numbers can be taken than there are used names.
  lemma TakenNumbersFit(candidate: string, used: set<string>, index: nat)
    requires index >= 2 && forall j: nat :: 2 <= j < index ==> candidate + NatText(j) in used
    ensures index - 2 <= |used|
  {
    var taken := seq(index - 2, i requires 0 <= i < index - 2 => candidate + NatText(i + 2));
    forall i, j | 0 <= i < j < |taken|
      ensures taken[i] != taken[j]
    {
      if taken[i] == taken[j] {
        NumberedInjective(candidate, i + 2, j + 2);
      }
    }
    var names := set x | x in taken;
    DistinctCount(taken, names);
    SubsetIsSmaller(names, used);
  }

  method DedupeVariantName(candidate: string, used: set<string>) returns (name: string, used': set<string>)
    ensures IsNameFor(candidate, used, name)
    ensures used' == used + {name}
  {
    if candidate !in used {
      return candidate, used + {candidate};
    }
    var index: nat := 2;
    while candidate + NatText(index) in used
      invariant index >= 2
      invariant forall j: nat :: 2 <= j < index ==> candidate + NatText(j) in used
      decreases |used| + 2 - index
    {
      index := index + 1;
      TakenNumbersFit(candidate, used, index);
    }
    return candidate + NatText(index), used + {candidate + NatText(index)};
  }

  function NamesOf(plans: seq<VariantPlan>): set<string> { set plan | plan in plans :: plan.variantName }

  ghost predicate DistinctNames(plans: seq<VariantPlan>) {
    forall i, j :: 0 <= i < j < |plans| ==> plans[i].variantName != plans[j].variantName
  }

  // Each plan is that of its option among the names used before it.
  ghost predicate ArePlansFor(
      options: seq<OptionSpec>, overrides: Option<map<string, string>>, suggest: Suggestions, plans: seq<VariantPlan>)
  {
    && |plans| <= |options|
    && forall i :: 0 <= i < |plans| ==>
         IsPlanFor(options[i], i, overrides, suggest, NamesOf(plans[..i]), plans[i])
  }

  method BuildVariantPlans(options: seq<OptionSpec>, overrides: Option<map<string, string>>, suggest: Suggestions)
    returns (plans: seq<VariantPlan>)
    ensures |plans| == |options| && DistinctNames(plans) && ArePlansFor(options, overrides, suggest, plans)
  {
    hide Candidate, IsNameFor, IsPlanFor, NamesOf, DistinctNames, ArePlansFor;
    var used: set<string> := {};
    plans := [];
    NoPlans(options, overrides, suggest);
    for i := 0 to |options|
      invariant |plans| == i && used == NamesOf(plans)
      invariant DistinctNames(plans) && ArePlansFor(options, overrides, suggest, plans)
    {
      var candidate := Candidate(options[i], i, overrides, suggest);
      var name;
      name, used := DedupeVariantName(candidate.0, used);
      NameIsNew(candidate.0, NamesOf(plans), name);
      CandidateIsPlan(options[i], i, overrides, suggest, NamesOf(plans), name);
      var plan := VariantPlan(options[i].labelText, options[i].value, name, candidate.1);
      OneMorePlan(options, overrides, suggest, plans, plan);
      plans := plans + [plan];
    }
  }

  lemma NoPlans(options: seq<OptionSpec>, overrides: Option<map<string, string>>, suggest: Suggestions)
    ensures DistinctNames([]) && ArePlansFor(options, overrides, suggest, []) && NamesOf([]) == {}
  {
  }

  lemma OneMorePlan(
      options: seq<OptionSpec>, overrides: Option<map<string, string>>, suggest: Suggestions, plans: seq<VariantPlan>,
      plan: VariantPlan)
    requires DistinctNames(plans) && ArePlansFor(options, overrides, suggest, plans) && |plans| < |options|
    requires IsPlanFor(options[|plans|], |plans|, overrides, suggest, NamesOf(plans), plan)
    requires plan.variantName !in NamesOf(plans)
    ensures DistinctNames(plans + [plan]) && ArePlansFor(options, overrides, suggest, plans + [plan])
    ensures NamesOf(plans + [plan]) == NamesOf(plans) + {plan.variantName}
  {
    hide IsPlanFor;
    var longer := plans + [plan];
    NamesGrow(plans, plan);
    forall i | 0 <= i < |longer|
      ensures IsPlanFor(options[i], i, overrides, suggest, NamesOf(longer[..i]), longer[i])
    {
      assert longer[..i] == plans[..i];
    }
    assert plans[..|plans|] == plans;
  }

  lemma CandidateIsPlan(
      option: OptionSpec, index: nat, overrides: Option<map<string, string>>, suggest: Suggestions, used: set<string>,
      name: string)
    requires IsNameFor(Candidate(option, index, overrides, suggest).0, used, name)
    ensures var source := Candidate(option, index, overrides, suggest).1;
            IsPlanFor(
              option, index, overrides, suggest, used, VariantPlan(option.labelText, option.value, name, source))
  {
    hide IsNameFor;
    var candidate := Candidate(option, index, overrides, suggest);
    assert Suggests(option, index, overrides, suggest, candidate.0, candidate.1);
  }

  lemma NameIsNew(candidate: string, used: set<string>, name: string)
    requires IsNameFor(candidate, used, name)
    ensures name !in used
  {
  }

  lemma NamesGrow(plans: seq<VariantPlan>, plan: VariantPlan)
    ensures NamesOf(plans + [plan]) == NamesOf(plans) + {plan.variantName}
    ensures forall k :: 0 <= k < |plans| ==> plans[k].variantName in NamesOf(plans)
  {
    assert plan in plans + [plan];
    assert forall other :: other in plans ==> other in plans + [plan];
  }
}
