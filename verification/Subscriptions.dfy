/** Which events an agent subscribes to: the two resolvers of per-channel filters. */
module Subscriptions {
  import opened Options

  type Uuid = nat

  /** `All` holds the configured string; only the literal "all" covers every channel. */
  datatype ChannelScope = All(text: string) | List(ids: seq<string>)

  datatype Rule = Rule(name: string, channels: ChannelScope, kinds: seq<nat>, requireMention: bool,
                       filter: Option<string>, promptTag: Option<string>)

  datatype Mode = Mentions | Everything | FromRules

  datatype Config = Config(mode: Mode, channelsOverride: Option<seq<string>>,
                           kindsOverride: Option<seq<nat>>, noMentionFilter: bool)

  datatype ChannelFilter = ChannelFilter(kinds: Option<seq<nat>>, requireMention: bool)

  const KIND_STREAM_MESSAGE: nat := 9
  const KIND_STREAM_REMINDER: nat := 40007
  const KIND_WORKFLOW_APPROVAL_REQUESTED: nat := 46010
  const DEFAULT_KINDS: seq<nat> := [KIND_STREAM_MESSAGE, KIND_WORKFLOW_APPROVAL_REQUESTED, KIND_STREAM_REMINDER]

  predicate NamesChannel(parse: string -> Option<Uuid>, ids: seq<string>, channel: Uuid) {
    exists i :: 0 <= i < |ids| && parse(ids[i]) == Some(channel)
  }

  predicate RuleApplies(parse: string -> Option<Uuid>, rule: Rule, channel: Uuid) {
    match rule.channels
    case All(text) => text == "all"
    case List(ids) => NamesChannel(parse, ids, channel)
  }

  // ------------------------------------------------------------- Merging rules

  function AddKinds(kinds: seq<nat>, more: seq<nat>): seq<nat>
    decreases |more|
  {
    if more == [] then kinds
    else AddKinds(if more[0] in kinds then kinds else kinds + [more[0]], more[1..])
  }

  /** The merge over the rules seen so far. */
  datatype Merged = Merged(kinds: Option<seq<nat>>, requireMention: bool, hasRule: bool)

  const NOTHING := Merged(Some([]), true, false)

  function AddRule(m: Merged, rule: Rule): Merged {
    Merged(
      if rule.kinds == [] || m.kinds.None? then None else Some(AddKinds(m.kinds.value, rule.kinds)),
      m.requireMention && rule.requireMention,
      true)
  }

  function MergeRules(parse: string -> Option<Uuid>, m: Merged, rules: seq<Rule>, channel: Uuid): Merged
    decreases |rules|
  {
    if rules == [] then m
    else
      var m' := if RuleApplies(parse, rules[0], channel) then AddRule(m, rules[0]) else m;
      MergeRules(parse, m', rules[1..], channel)
  }

  /** The filter a channel gets, if it is subscribed to at all. */
  function FilterFor(parse: string -> Option<Uuid>, config: Config, rules: seq<Rule>, channel: Uuid)
    : Option<ChannelFilter>
  {
    if config.mode.FromRules? then
      var m := MergeRules(parse, NOTHING, rules, channel);
      if m.hasRule then Some(ChannelFilter(m.kinds, m.requireMention)) else None
    else if config.channelsOverride.Some? && !NamesChannel(parse, config.channelsOverride.value, channel) then None
    else if config.mode.Mentions? then
      Some(ChannelFilter(Some(if config.kindsOverride.Some? then config.kindsOverride.value else DEFAULT_KINDS),
                         !config.noMentionFilter))
    else Some(ChannelFilter(config.kindsOverride, false))
  }

  // ----------------------------------------------------------- The two resolvers

  method ExtendKinds(kinds: seq<nat>, more: seq<nat>) returns (all: seq<nat>)
    ensures all == AddKinds(kinds, more)
  {
    all := kinds;
    var i := 0;
    while i < |more|
      invariant 0 <= i <= |more|
      invariant AddKinds(all, more[i..]) == AddKinds(kinds, more)
    {
      assert more[i..][0] == more[i] && more[i..][1..] == more[i + 1..];
      if more[i] !in all {
        all := all + [more[i]];
      }
      i := i + 1;
    }
  }

  method MergeForChannel(parse: string -> Option<Uuid>, rules: seq<Rule>, channel: Uuid) returns (m: Merged)
    ensures m == MergeRules(parse, NOTHING, rules, channel)
  {
    var kinds: Option<seq<nat>> := Some([]);
    var requireMention, hasRule := true, false;
    var i := 0;
    while i < |rules|
      invariant 0 <= i <= |rules|
      invariant MergeRules(parse, Merged(kinds, requireMention, hasRule), rules[i..], channel)
             == MergeRules(parse, NOTHING, rules, channel)
    {
      assert rules[i..][0] == rules[i] && rules[i..][1..] == rules[i + 1..];
      if RuleApplies(parse, rules[i], channel) {
        hasRule := true;
        if rules[i].kinds == [] {
          kinds := None;
        } else if kinds.Some? {
          var all := ExtendKinds(kinds.value, rules[i].kinds);
          kinds := Some(all);
        }
        if !rules[i].requireMention {
          requireMention := false;
        }
      }
      i := i + 1;
    }
    m := Merged(kinds, requireMention, hasRule);
  }

  /** The override channels that were discovered, in order. */
  method TargetChannels(parse: string -> Option<Uuid>, config: Config, discovered: seq<Uuid>)
    returns (targets: seq<Uuid>)
    ensures forall ch :: ch in targets <==>
              ch in discovered &&
              (config.channelsOverride.Some? ==> NamesChannel(parse, config.channelsOverride.value, ch))
  {
    if config.channelsOverride.None? {
      return discovered;
    }
    var ids := config.channelsOverride.value;
    targets := [];
    for i := 0 to |ids|
      invariant forall ch :: ch in targets ==> ch in discovered && NamesChannel(parse, ids, ch)
      invariant forall k :: 0 <= k < i && parse(ids[k]).Some? && parse(ids[k]).value in discovered ==>
                  parse(ids[k]).value in targets
    {
      var parsed := parse(ids[i]);
      if parsed.Some? && parsed.value in discovered {
        targets := targets + [parsed.value];
      }
    }
  }

  method ResolveChannelFilters(parse: string -> Option<Uuid>, config: Config, discovered: seq<Uuid>, rules: seq<Rule>)
    returns (result: map<Uuid, ChannelFilter>)
    ensures forall ch :: ch in result ==> ch in discovered
    ensures forall ch :: ch in discovered ==>
              (if ch in result then Some(result[ch]) else None) == FilterFor(parse, config, rules, ch)
  {
    result := map[];
    if config.mode.FromRules? {
      for i := 0 to |discovered|
        invariant forall ch :: ch in result ==>
                    ch in discovered && FilterFor(parse, config, rules, ch) == Some(result[ch])
        invariant forall k :: 0 <= k < i && FilterFor(parse, config, rules, discovered[k]).Some? ==>
                    discovered[k] in result
      {
        var m := MergeForChannel(parse, rules, discovered[i]);
        if m.hasRule {
          result := result[discovered[i] := ChannelFilter(m.kinds, m.requireMention)];
        }
      }
      return;
    }
    var targets := TargetChannels(parse, config, discovered);
    var filter :=
      if config.mode.Mentions? then
        ChannelFilter(Some(if config.kindsOverride.Some? then config.kindsOverride.value else DEFAULT_KINDS),
                      !config.noMentionFilter)
      else ChannelFilter(config.kindsOverride, false);
    for i := 0 to |targets|
      invariant forall ch :: ch in result ==> ch in targets && result[ch] == filter
      invariant forall k :: 0 <= k < i ==> targets[k] in result
    {
      result := result[targets[i] := filter];
    }
  }

  method ResolveDynamicChannelFilter(parse: string -> Option<Uuid>, config: Config, channel: Uuid, rules: seq<Rule>)
    returns (filter: Option<ChannelFilter>)
    ensures filter == FilterFor(parse, config, rules, channel)
  {
    if !config.mode.FromRules? && config.channelsOverride.Some? {
      if !NamesChannel(parse, config.channelsOverride.value, channel) {
        return None;
      }
    }
    match config.mode
    case Mentions =>
      var kinds := if config.kindsOverride.Some? then config.kindsOverride.value else DEFAULT_KINDS;
      filter := Some(ChannelFilter(Some(kinds), !config.noMentionFilter));
    case Everything => filter := Some(ChannelFilter(config.kindsOverride, false));
    case FromRules =>
      var merged: Option<seq<nat>>, requireMention, hasRule := Some([]), true, false;
      var i := 0;
      while i < |rules|
        invariant 0 <= i <= |rules|
        invariant MergeRules(parse, Merged(merged, requireMention, hasRule), rules[i..], channel)
               == MergeRules(parse, NOTHING, rules, channel)
      {
        var rule := rules[i];
        assert rules[i..][0] == rule && rules[i..][1..] == rules[i + 1..];
        i := i + 1;
        if !RuleApplies(parse, rule, channel) {
          continue;
        }
        hasRule := true;
        if rule.kinds == [] {
          merged := None;
        } else if merged.Some? {
          var all := ExtendKinds(merged.value, rule.kinds);
          merged := Some(all);
        }
        requireMention := requireMention && rule.requireMention;
      }
      filter := if hasRule then Some(ChannelFilter(merged, requireMention)) else None;
  }

  // ------------------------------------------------- What the merged filter means

  datatype Event = Event(kind: nat, tags: seq<seq<string>>)

  predicate Mentioned(event: Event, agent: string) {
    exists i :: 0 <= i < |event.tags| && |event.tags[i]| >= 2 && event.tags[i][0] == "p" && event.tags[i][1] == agent
  }

  /** An event mentions the agent exactly when it has a `p` tag with the agent's key second. */
  lemma TagMentions(kind: nat, before: seq<seq<string>>, agent: string, more: seq<string>, after: seq<seq<string>>)
    ensures Mentioned(Event(kind, before + [["p", agent] + more] + after), agent)
  {
    var tags := before + [["p", agent] + more] + after;
    assert tags[|before|] == ["p", agent] + more;
  }

  lemma MentionIsTag(event: Event, agent: string)
    returns (before: seq<seq<string>>, more: seq<string>, after: seq<seq<string>>)
    requires Mentioned(event, agent)
    ensures event.tags == before + [["p", agent] + more] + after
  {
    var i :| 0 <= i < |event.tags| && |event.tags[i]| >= 2 && event.tags[i][0] == "p" && event.tags[i][1] == agent;
    before, more, after := event.tags[..i], event.tags[i][2..], event.tags[i + 1..];
    assert event.tags[i] == ["p", agent] + more;
  }

  /** The relay-side check of a subscription filter. */
  predicate Admits(filter: ChannelFilter, event: Event, agent: string) {
    && (filter.kinds.Some? ==> event.kind in filter.kinds.value)
    && (filter.requireMention ==> Mentioned(event, agent))
  }

  /** The part of a rule that a filter can express. */
  predicate Wants(rule: Rule, event: Event, agent: string) {
    && (rule.kinds != [] ==> event.kind in rule.kinds)
    && (rule.requireMention ==> Mentioned(event, agent))
  }

  lemma {:induction false} AddKindsIsUnion(kinds: seq<nat>, more: seq<nat>)
    ensures forall k :: k in AddKinds(kinds, more) <==> k in kinds || k in more
    ensures (forall i, j :: 0 <= i < j < |kinds| ==> kinds[i] != kinds[j]) ==>
              forall i, j :: 0 <= i < j < |AddKinds(kinds, more)| ==>
                AddKinds(kinds, more)[i] != AddKinds(kinds, more)[j]
    decreases |more|
  {
    if more != [] {
      AddKindsIsUnion(if more[0] in kinds then kinds else kinds + [more[0]], more[1..]);
      assert more == [more[0]] + more[1..];
    }
  }

  /** The merge takes a kind exactly when some applying rule does, and drops the mention
      requirement exactly when some applying rule has none. */
  lemma {:induction false} MergeMeaning(parse: string -> Option<Uuid>, m: Merged, rules: seq<Rule>, channel: Uuid)
    ensures var r := MergeRules(parse, m, rules, channel);
      && (r.hasRule <==> m.hasRule || exists i :: 0 <= i < |rules| && RuleApplies(parse, rules[i], channel))
      && (r.requireMention <==>
            && m.requireMention
            && forall i :: 0 <= i < |rules| && RuleApplies(parse, rules[i], channel) ==> rules[i].requireMention)
      && (r.kinds.None? <==>
            || m.kinds.None?
            || exists i :: 0 <= i < |rules| && RuleApplies(parse, rules[i], channel) && rules[i].kinds == [])
      && (r.kinds.Some? ==> forall k :: k in r.kinds.value <==>
            || k in m.kinds.value
            || exists i :: 0 <= i < |rules| && RuleApplies(parse, rules[i], channel) && k in rules[i].kinds)
    decreases |rules|
  {
    if rules != [] {
      var m' := if RuleApplies(parse, rules[0], channel) then AddRule(m, rules[0]) else m;
      var rest := rules[1..];
      MergeMeaning(parse, m', rest, channel);
      assert rules == [rules[0]] + rest;
      assert forall i :: 0 <= i < |rest| ==> rest[i] == rules[i + 1];
      if m.kinds.Some? {
        AddKindsIsUnion(m.kinds.value, rules[0].kinds);
      }
    }
  }

  /** In rule mode a channel is subscribed to exactly when some rule applies to it, and its
      filter admits every event that some applying rule wants. */
  lemma FilterCoversRules(parse: string -> Option<Uuid>, config: Config, rules: seq<Rule>, channel: Uuid)
    requires config.mode.FromRules?
    ensures FilterFor(parse, config, rules, channel).Some?
            <==> exists i :: 0 <= i < |rules| && RuleApplies(parse, rules[i], channel)
    ensures forall i, event: Event, agent ::
              0 <= i < |rules| && RuleApplies(parse, rules[i], channel) && Wants(rules[i], event, agent) ==>
                && FilterFor(parse, config, rules, channel).Some?
                && Admits(FilterFor(parse, config, rules, channel).value, event, agent)
  {
    MergeMeaning(parse, NOTHING, rules, channel);
  }

  /** Exactly which events that filter admits: a kind some applying rule takes, and a mention
      unless some applying rule needs none. */
  lemma RuleFilterAdmits(parse: string -> Option<Uuid>, config: Config, rules: seq<Rule>, channel: Uuid,
                         event: Event, agent: string)
    requires config.mode.FromRules? && FilterFor(parse, config, rules, channel).Some?
    ensures Admits(FilterFor(parse, config, rules, channel).value, event, agent) <==>
              && (exists i :: 0 <= i < |rules| && RuleApplies(parse, rules[i], channel)
                              && (rules[i].kinds == [] || event.kind in rules[i].kinds))
              && (Mentioned(event, agent)
                  || exists i :: 0 <= i < |rules| && RuleApplies(parse, rules[i], channel) && !rules[i].requireMention)
  {
    MergeMeaning(parse, NOTHING, rules, channel);
  }

  /** Without rules only an override leaves a channel out; mention mode takes the configured
      kinds, or the three default ones, and asks for a mention unless told not to; the other
      mode asks for the configured kinds alone. */
  lemma PlainFilterAdmits(parse: string -> Option<Uuid>, config: Config, rules: seq<Rule>, channel: Uuid,
                          event: Event, agent: string)
    requires !config.mode.FromRules?
    ensures var filter := FilterFor(parse, config, rules, channel);
      && (filter.None? <==>
            config.channelsOverride.Some? && !NamesChannel(parse, config.channelsOverride.value, channel))
      && (filter.Some? && config.mode.Mentions? ==>
            (Admits(filter.value, event, agent) <==>
               && (if config.kindsOverride.Some? then event.kind in config.kindsOverride.value
                   else event.kind == 9 || event.kind == 46010 || event.kind == 40007)
               && (config.noMentionFilter || Mentioned(event, agent))))
      && (filter.Some? && config.mode.Everything? ==>
            (Admits(filter.value, event, agent) <==>
               config.kindsOverride.None? || event.kind in config.kindsOverride.value))
  {
  }
}
