/** Matching events against the ordered rules, with per-rule timeout counters. */
module EventMatching {
  import opened Options
  import opened Subscriptions

  const MAX_CONSECUTIVE_TIMEOUTS: nat := 5

  /** What evaluating a rule's filter expression came to. */
  datatype Verdict = Pass | Reject | Timeout | Fail

  datatype Matched = Matched(index: nat, promptTag: string)

  /** One event to match: its channel and what each rule's filter would say to it. */
  datatype Call = Call(event: Event, channel: Uuid, agent: string, verdict: nat -> Verdict)

  /** The counters, and every evaluation made of each rule's filter. */
  datatype Counters = Counters(timeouts: seq<nat>, history: seq<seq<Verdict>>)

  predicate ScopeMatches(show: Uuid -> string, scope: ChannelScope, channel: Uuid) {
    match scope
    case All(text) => text == "all"
    case List(ids) => show(channel) in ids
  }

  /** The rule gets as far as its filter expression. */
  predicate Reaches(show: Uuid -> string, rule: Rule, call: Call) {
    ScopeMatches(show, rule.channels, call.channel) && Wants(rule, call.event, call.agent)
  }

  function Tag(rule: Rule): string {
    if rule.promptTag.Some? then rule.promptTag.value else rule.name
  }

  /** The counter of a rule after one more evaluation. */
  function Count(n: nat, v: Verdict): nat {
    match v
    case Pass => 0
    case Reject => 0
    case Timeout => n + 1
    case Fail => n
  }

  function Evaluated(c: Counters, i: nat, v: Verdict): Counters
    requires i < |c.timeouts| == |c.history|
  {
    Counters(c.timeouts[i := Count(c.timeouts[i], v)], c.history[i := c.history[i] + [v]])
  }

  /** Matching from rule `i` on. */
  function MatchFrom(show: Uuid -> string, rules: seq<Rule>, c: Counters, call: Call, i: nat)
    : (r: (Option<Matched>, Counters))
    requires i <= |rules| == |c.timeouts| == |c.history|
    ensures |r.1.timeouts| == |r.1.history| == |rules|
    decreases |rules| - i
  {
    if i == |rules| then (None, c)
    else
      var rule := rules[i];
      if !Reaches(show, rule, call) then MatchFrom(show, rules, c, call, i + 1)
      else if rule.filter.None? then (Some(Matched(i, Tag(rule))), c)
      else if c.timeouts[i] >= MAX_CONSECUTIVE_TIMEOUTS then (None, c)
      else
        var v := call.verdict(i);
        var c' := Evaluated(c, i, v);
        match v
        case Pass => (Some(Matched(i, Tag(rule))), c')
        case Reject => MatchFrom(show, rules, c', call, i + 1)
        case Timeout => (None, c')
        case Fail => (None, c')
  }

  class RuleTable {
    const rules: seq<Rule>
    var timeouts: seq<nat>
    ghost var history: seq<seq<Verdict>>

    ghost predicate Valid()
      reads this
    {
      |timeouts| == |history| == |rules|
    }

    ghost function Now(): Counters
      reads this
    {
      Counters(timeouts, history)
    }

    constructor (rules: seq<Rule>)
      ensures this.rules == rules && Valid() && Now() == Fresh(|rules|)
    {
      this.rules := rules;
      timeouts := Fresh(|rules|).timeouts;
      history := Fresh(|rules|).history;
    }

    method MatchEvent(show: Uuid -> string, call: Call) returns (result: Option<Matched>)
      requires Valid()
      modifies this
      ensures Valid() && (result, Now()) == MatchFrom(show, rules, old(Now()), call, 0)
    {
      var i := 0;
      while i < |rules|
        invariant 0 <= i <= |rules| && Valid()
        invariant MatchFrom(show, rules, Now(), call, i) == MatchFrom(show, rules, old(Now()), call, 0)
      {
        var rule := rules[i];
        if Reaches(show, rule, call) {
          if rule.filter.Some? {
            if timeouts[i] >= MAX_CONSECUTIVE_TIMEOUTS {
              return None;
            }
            var v := call.verdict(i);
            history := history[i := history[i] + [v]];
            match v {
              case Pass => timeouts := timeouts[i := 0];
              case Reject => timeouts := timeouts[i := 0];
              case Timeout => timeouts := timeouts[i := timeouts[i] + 1];
              case Fail => timeouts := timeouts[i := timeouts[i]];
            }
            if !v.Pass? && !v.Reject? {
              return None;
            }
            if v.Pass? {
              return Some(Matched(i, Tag(rule)));
            }
          } else {
            return Some(Matched(i, Tag(rule)));
          }
        }
        i := i + 1;
      }
      result := None;
    }
  }

  function Fresh(n: nat): Counters {
    Counters(seq(n, _ => 0), seq(n, _ => []))
  }

  // -------------------------------------------------- First rule not skipped

  /** The matcher moves on past the rule. */
  predicate Skipped(show: Uuid -> string, rule: Rule, timeouts: nat, call: Call, i: nat) {
    || !Reaches(show, rule, call)
    || (rule.filter.Some? && timeouts < MAX_CONSECUTIVE_TIMEOUTS && call.verdict(i).Reject?)
  }

  predicate Accepts(rule: Rule, timeouts: nat, call: Call, i: nat) {
    rule.filter.None? || (timeouts < MAX_CONSECUTIVE_TIMEOUTS && call.verdict(i).Pass?)
  }

  /** The first rule from `i` on that is not skipped. */
  ghost predicate Decides(show: Uuid -> string, rules: seq<Rule>, c: Counters, call: Call, i: nat, k: nat)
    requires |rules| == |c.timeouts|
  {
    && i <= k < |rules| && !Skipped(show, rules[k], c.timeouts[k], call, k)
    && forall j :: i <= j < k ==> Skipped(show, rules[j], c.timeouts[j], call, j)
  }

  /** The result is the first rule not skipped, and only if that rule accepts; any error or
      timeout of its filter, or a disabled filter, means no match at all. */
  lemma {:induction false} FirstUnskippedDecides(show: Uuid -> string, rules: seq<Rule>,
                                                 c: Counters, call: Call, i: nat)
    requires i <= |rules| == |c.timeouts| == |c.history|
    ensures var r := MatchFrom(show, rules, c, call, i).0;
      && (forall k: nat :: Decides(show, rules, c, call, i, k) ==>
            r == if Accepts(rules[k], c.timeouts[k], call, k) then Some(Matched(k, Tag(rules[k]))) else None)
      && (r.Some? ==> Decides(show, rules, c, call, i, r.value.index) &&
                      Accepts(rules[r.value.index], c.timeouts[r.value.index], call, r.value.index))
    decreases |rules| - i
  {
    if i < |rules| && Skipped(show, rules[i], c.timeouts[i], call, i) {
      var c' := if Reaches(show, rules[i], call) then Evaluated(c, i, Reject) else c;
      assert MatchFrom(show, rules, c, call, i) == MatchFrom(show, rules, c', call, i + 1);
      FirstUnskippedDecides(show, rules, c', call, i + 1);
      forall k: nat ensures k > i && Decides(show, rules, c, call, i, k) ==> Decides(show, rules, c', call, i + 1, k) {
      }
      var r := MatchFrom(show, rules, c, call, i).0;
      if r.Some? {
        assert Decides(show, rules, c', call, i + 1, r.value.index);
      }
    } else if i < |rules| {
      assert Decides(show, rules, c, call, i, i);
    }
  }

  /** A rule for all channels and all kinds, without a mention or a filter to ask for, takes
      every event that gets to it, under its own tag or else its name. */
  lemma CatchAllTakes(show: Uuid -> string, rules: seq<Rule>, c: Counters, call: Call, k: nat)
    requires k < |rules| == |c.timeouts| == |c.history|
    requires rules[k].channels == All("all") && rules[k].kinds == []
    requires !rules[k].requireMention && rules[k].filter.None?
    requires forall j :: 0 <= j < k ==> Skipped(show, rules[j], c.timeouts[j], call, j)
    ensures MatchFrom(show, rules, c, call, 0).0 ==
      Some(Matched(k, match rules[k].promptTag case Some(tag) => tag case None => rules[k].name))
  {
    assert Decides(show, rules, c, call, 0, k);
    FirstUnskippedDecides(show, rules, c, call, 0);
  }

  /** A match names a rule whose scope, kinds, mention and filter all fit the event. */
  lemma MatchFits(show: Uuid -> string, rules: seq<Rule>, c: Counters, call: Call)
    requires |rules| == |c.timeouts| == |c.history| && MatchFrom(show, rules, c, call, 0).0.Some?
    ensures var m := MatchFrom(show, rules, c, call, 0).0.value;
      && m.index < |rules|
      && var rule := rules[m.index];
      && (rule.channels == All("all")
          || (rule.channels.List? && show(call.channel) in rule.channels.ids))
      && (rule.kinds == [] || call.event.kind in rule.kinds)
      && (!rule.requireMention || Mentioned(call.event, call.agent))
      && (rule.filter.None? || (c.timeouts[m.index] < 5 && call.verdict(m.index).Pass?))
      && (rule.promptTag == Some(m.promptTag) || (rule.promptTag.None? && m.promptTag == rule.name))
  {
    FirstUnskippedDecides(show, rules, c, call, 0);
    var m := MatchFrom(show, rules, c, call, 0).0.value;
    assert Decides(show, rules, c, call, 0, m.index);
  }

  /** The filter of rule `k` is evaluated. */
  ghost predicate Evaluates(show: Uuid -> string, rules: seq<Rule>, c: Counters, call: Call, i: nat, k: nat)
    requires |rules| == |c.timeouts|
  {
    && i <= k < |rules| && Reaches(show, rules[k], call)
    && rules[k].filter.Some? && c.timeouts[k] < MAX_CONSECUTIVE_TIMEOUTS
    && forall j :: i <= j < k ==> Skipped(show, rules[j], c.timeouts[j], call, j)
  }

  /** An event has the filters evaluated of exactly the rules that it gets to, and no other
      counter moves. */
  lemma {:induction false} EvaluatesExactly(show: Uuid -> string, rules: seq<Rule>, c: Counters, call: Call,
                                            i: nat, k: nat)
    requires i <= |rules| == |c.timeouts| == |c.history| && k < |rules|
    ensures var c' := MatchFrom(show, rules, c, call, i).1;
      && c'.history[k] == c.history[k] + (if Evaluates(show, rules, c, call, i, k) then [call.verdict(k)] else [])
      && (c'.timeouts[k] == if Evaluates(show, rules, c, call, i, k)
                            then Count(c.timeouts[k], call.verdict(k)) else c.timeouts[k])
    decreases |rules| - i
  {
    if i < |rules| {
      if Skipped(show, rules[i], c.timeouts[i], call, i) {
        var c' := if Reaches(show, rules[i], call) then Evaluated(c, i, Reject) else c;
        assert MatchFrom(show, rules, c, call, i) == MatchFrom(show, rules, c', call, i + 1);
        EvaluatesExactly(show, rules, c', call, i + 1, k);
        if k > i {
          assert Evaluates(show, rules, c, call, i, k) <==> Evaluates(show, rules, c', call, i + 1, k);
        }
      }
    }
  }

  /** Whatever the matcher accepts on a channel, the channel's subscription lets through,
      as long as parsing a channel id undoes printing it. */
  lemma SubscriptionIsSound(parse: string -> Option<Uuid>, show: Uuid -> string, config: Config,
                            rules: seq<Rule>, c: Counters, call: Call)
    requires |rules| == |c.timeouts| == |c.history| && config.mode.FromRules?
    requires parse(show(call.channel)) == Some(call.channel)
    requires MatchFrom(show, rules, c, call, 0).0.Some?
    ensures FilterFor(parse, config, rules, call.channel).Some?
    ensures Admits(FilterFor(parse, config, rules, call.channel).value, call.event, call.agent)
  {
    FirstUnskippedDecides(show, rules, c, call, 0);
    var i := MatchFrom(show, rules, c, call, 0).0.value.index;
    var rule := rules[i];
    if rule.channels.List? {
      var k :| 0 <= k < |rule.channels.ids| && rule.channels.ids[k] == show(call.channel);
      assert NamesChannel(parse, rule.channels.ids, call.channel);
    }
    assert RuleApplies(parse, rule, call.channel);
    FilterCoversRules(parse, config, rules, call.channel);
  }

  // ------------------------------------------------------------- Over whole runs

  predicate Completed(v: Verdict) {
    v.Pass? || v.Reject?
  }

  /** Where the history goes on after the last evaluation that completed. */
  function AfterCompleted(history: seq<Verdict>): (k: nat)
    ensures k <= |history|
  {
    if history == [] then 0
    else if Completed(history[|history| - 1]) then |history|
    else AfterCompleted(history[..|history| - 1])
  }

  lemma {:induction false} AfterCompletedIsLast(history: seq<Verdict>)
    ensures var k := AfterCompleted(history);
      && (k > 0 ==> Completed(history[k - 1]))
      && forall i :: k <= i < |history| ==> !Completed(history[i])
  {
    if history != [] && !Completed(history[|history| - 1]) {
      AfterCompletedIsLast(history[..|history| - 1]);
    }
  }

  /** The number of timeouts since the last evaluation that completed. */
  function TimeoutsSince(history: seq<Verdict>): nat {
    multiset(history[AfterCompleted(history)..])[Timeout]
  }

  /** The counter's own step keeps up with that number. */
  lemma CountKeepsUp(history: seq<Verdict>, v: Verdict)
    ensures TimeoutsSince(history + [v]) == Count(TimeoutsSince(history), v)
  {
    var longer := history + [v];
    assert longer[..|history|] == history;
    if Completed(v) {
      assert longer[AfterCompleted(longer)..] == [];
    } else {
      var k := AfterCompleted(history);
      assert AfterCompleted(longer) == k;
      assert longer[k..] == history[k..] + [v];
    }
  }

  ghost predicate CountersOk(rules: seq<Rule>, c: Counters) {
    && |rules| == |c.timeouts| == |c.history|
    && forall i :: 0 <= i < |rules| ==>
         c.timeouts[i] == TimeoutsSince(c.history[i]) && c.timeouts[i] <= MAX_CONSECUTIVE_TIMEOUTS
  }

  lemma {:induction false} MatchKeepsCounters(show: Uuid -> string, rules: seq<Rule>, c: Counters, call: Call, i: nat)
    requires CountersOk(rules, c) && i <= |rules|
    ensures CountersOk(rules, MatchFrom(show, rules, c, call, i).1)
    ensures forall k :: 0 <= k < |rules| && c.timeouts[k] == MAX_CONSECUTIVE_TIMEOUTS ==>
              MatchFrom(show, rules, c, call, i).1.timeouts[k] == c.timeouts[k] &&
              MatchFrom(show, rules, c, call, i).1.history[k] == c.history[k]
    decreases |rules| - i
  {
    if i < |rules| {
      var v := call.verdict(i);
      var c' := Evaluated(c, i, v);
      CountKeepsUp(c.history[i], v);
      if !Reaches(show, rules[i], call) {
        MatchKeepsCounters(show, rules, c, call, i + 1);
      } else if rules[i].filter.Some? && c.timeouts[i] < MAX_CONSECUTIVE_TIMEOUTS {
        assert CountersOk(rules, c');
        if v.Reject? {
          MatchKeepsCounters(show, rules, c', call, i + 1);
        }
      }
    }
  }

  function RunAll(show: Uuid -> string, rules: seq<Rule>, c: Counters, calls: seq<Call>): Counters
    requires |rules| == |c.timeouts| == |c.history|
    decreases |calls|
  {
    if calls == [] then c else RunAll(show, rules, MatchFrom(show, rules, c, calls[0], 0).1, calls[1..])
  }

  /** Over every run the counter of a rule is the number of timeouts since its filter last
      completed, never above five, and five is final. */
  lemma {:induction false} RunsKeepCounters(show: Uuid -> string, rules: seq<Rule>, c: Counters, calls: seq<Call>)
    requires CountersOk(rules, c)
    ensures |RunAll(show, rules, c, calls).timeouts| == |rules|
    ensures CountersOk(rules, RunAll(show, rules, c, calls))
    ensures forall k :: 0 <= k < |rules| && c.timeouts[k] == MAX_CONSECUTIVE_TIMEOUTS ==>
              RunAll(show, rules, c, calls).timeouts[k] == MAX_CONSECUTIVE_TIMEOUTS
    decreases |calls|
  {
    if calls != [] {
      MatchKeepsCounters(show, rules, c, calls[0], 0);
      RunsKeepCounters(show, rules, MatchFrom(show, rules, c, calls[0], 0).1, calls[1..]);
    }
  }

  /** Once a rule is disabled, every later event that gets to its filter matches nothing. */
  lemma DisabledMatchesNothing(show: Uuid -> string, rules: seq<Rule>, c: Counters, calls: seq<Call>,
                               call: Call, k: nat)
    requires CountersOk(rules, c) && k < |rules| && c.timeouts[k] == MAX_CONSECUTIVE_TIMEOUTS && rules[k].filter.Some?
    requires |RunAll(show, rules, c, calls).timeouts| == |RunAll(show, rules, c, calls).history| == |rules|
    requires Decides(show, rules, RunAll(show, rules, c, calls), call, 0, k)
    ensures MatchFrom(show, rules, RunAll(show, rules, c, calls), call, 0).0.None?
  {
    RunsKeepCounters(show, rules, c, calls);
    FirstUnskippedDecides(show, rules, RunAll(show, rules, c, calls), call, 0);
  }

  lemma FreshCountersOk(rules: seq<Rule>)
    ensures CountersOk(rules, Fresh(|rules|))
  {
  }

  /** From a new rule table on, whatever events come. */
  lemma EveryRun(show: Uuid -> string, rules: seq<Rule>, calls: seq<Call>)
    ensures CountersOk(rules, RunAll(show, rules, Fresh(|rules|), calls))
  {
    FreshCountersOk(rules);
    RunsKeepCounters(show, rules, Fresh(|rules|), calls);
  }
}
