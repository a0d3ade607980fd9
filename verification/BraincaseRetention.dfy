/** The retention policy evaluator: what a policy, however odd, decides for a stored
    record at a given time. */
module BraincaseRetention {
  import opened Common
  import opened BraincaseStore

  /** Values in a policy document; floatOf is what float() makes of a string. */
  datatype Value =
    | Text(s: string, floatOf: Option<real>)
    | Number(r: real)
    | Boolean(b: bool)
    | Other(truthy: bool)

  /** A duration field: missing, not a duration, or a number of milliseconds. */
  datatype Threshold = Absent | Unreadable | After(ms: nat)

  datatype Rule =
    | NotARule
    | Rule(name: Option<string>, match_: Option<map<string, Value>>, action: string, reason: Option<string>,
           staleAfter: Threshold, expireAfter: Threshold)

  /** A policy document; rules that are not a list read as none. */
  datatype Policy = NotAPolicy | Policy(rules: seq<Rule>, defaultAction: string)

  datatype Action = Keep | Stale | Retire

  datatype Decision = Decision(action: Action, reason: string, matchedRule: Option<string>)

  function FieldText(r: Record, field: string): Option<string> {
    if field == "status" then Some(r.status)
    else if field == "retention" then Some(r.retention)
    else if field == "tier" then Some(r.tier)
    else if field == "record_type" then Some(r.recordType)
    else if field == "visibility" then Some(r.visibility)
    else if field == "memory_domain" then Some(r.memoryDomain)
    else None
  }

  function AsFloat(v: Value): Option<real> {
    match v
    case Text(_, f) => f
    case Number(r) => Some(r)
    case Boolean(b) => Some(if b then 1.0 else 0.0)
    case Other(_) => None
  }

  predicate Truthy(v: Value) {
    match v
    case Text(s, _) => s != ""
    case Number(r) => r != 0.0
    case Boolean(b) => b
    case Other(t) => t
  }

  /** An unknown field never matches, so a misspelt rule cannot match too much. */
  predicate FieldMatches(r: Record, field: string, expected: Value) {
    if FieldText(r, field).Some? then expected.Text? && FieldText(r, field).value == expected.s
    else if field == "min_importance" then AsFloat(expected).Some? && r.importance >= AsFloat(expected).value
    else if field == "max_importance" then AsFloat(expected).Some? && r.importance <= AsFloat(expected).value
    else if field == "source_refs_required" then Truthy(expected) ==> r.sourceRefs != {}
    else false
  }

  predicate Matches(rule: Rule, r: Record) {
    rule.Rule? && rule.match_.Some? &&
    forall field :: field in rule.match_.value ==> FieldMatches(r, field, rule.match_.value[field])
  }

  /** The early-exit loop over the match fields, in any order. */
  method RuleMatches(rule: Rule, r: Record) returns (matches: bool)
    ensures matches <==> Matches(rule, r)
  {
    if rule.NotARule? || rule.match_.None? {
      return false;
    }
    var left := rule.match_.value.Keys;
    while left != {}
      invariant left <= rule.match_.value.Keys
      invariant forall field :: field in rule.match_.value.Keys - left ==> FieldMatches(r, field, rule.match_.value[field])
      decreases left
    {
      var field :| field in left;
      var expected := rule.match_.value[field];
      if FieldText(r, field).Some? {
        if !(expected.Text? && FieldText(r, field).value == expected.s) {
          return false;
        }
      } else if field == "min_importance" {
        if AsFloat(expected).None? || r.importance < AsFloat(expected).value {
          return false;
        }
      } else if field == "max_importance" {
        if AsFloat(expected).None? || r.importance > AsFloat(expected).value {
          return false;
        }
      } else if field == "source_refs_required" {
        if Truthy(expected) && r.sourceRefs == {} {
          return false;
        }
      } else {
        return false;
      }
      left := left - {field};
    }
    matches := true;
  }

  function FirstMatch(rules: seq<Rule>, r: Record): (rule: Option<Rule>)
    ensures rule.Some? ==> rule.value in rules && Matches(rule.value, r)
  {
    if rules == [] then None
    else if Matches(rules[0], r) then Some(rules[0])
    else FirstMatch(rules[1..], r)
  }

  function Allowed(action: string): Option<Action> {
    if action == "keep" then Some(Keep)
    else if action == "stale" then Some(Stale)
    else if action == "retire" then Some(Action.Retire)
    else None
  }

  predicate ActiveDurable(r: Record) { r.status == "active" && r.retention == "durable" }

  predicate Reached(t: Threshold, age: int) { t.After? && age >= t.ms }

  function RuleName(rule: Rule, otherwise: string): string
    requires rule.Rule?
  {
    if rule.name.Some? && rule.name.value != "" then rule.name.value else otherwise
  }

  function RuleDecision(rule: Rule, age: int): Decision
    requires rule.Rule?
  {
    var reason := if rule.reason.Some? && rule.reason.value != "" then rule.reason.value
                  else RuleName(rule, "retention_policy");
    if Reached(rule.expireAfter, age) then
      match Allowed(rule.action)
      case Some(a) => Decision(a, reason, rule.name)
      case None =>
        Decision(Keep, if rule.action in {"delete", "promote", "activate", "render"} then "forbidden_action_forced_keep"
                       else "invalid_action_forced_keep", rule.name)
    else if Reached(rule.staleAfter, age) then
      Decision(Stale, if rule.action == "stale" then reason
                      else if rule.name.Some? && rule.name.value != "" then rule.name.value + "_stale"
                      else "retention_stale", rule.name)
    else Decision(Keep, "within_retention_window", rule.name)
  }

  function Verdict(r: Record, now: int, policy: Policy): Decision {
    if policy.NotAPolicy? then Decision(Keep, "invalid_policy", None)
    else if Inactive(r.status) then Decision(Keep, "already_inactive", None)
    else if now < r.updatedAt then Decision(Keep, "missing_or_invalid_timestamp", None)
    else if ActiveDurable(r) then Decision(Keep, "durable_keep", Some("active_durable_keep"))
    else
      match FirstMatch(policy.rules, r)
      case None =>
        Decision(if Allowed(policy.defaultAction).Some? then Allowed(policy.defaultAction).value else Keep,
                 "no_matching_rule", None)
      case Some(rule) => RuleDecision(rule, now - r.updatedAt)
  }

  /** retention_decision_for_record: the loop looks for the first matching rule. */
  method DecideRetention(r: Record, now: int, policy: Policy) returns (d: Decision)
    ensures d == Verdict(r, now, policy)
  {
    if policy.NotAPolicy? {
      return Decision(Keep, "invalid_policy", None);
    }
    if r.status == "retired" || r.status == "superseded" {
      return Decision(Keep, "already_inactive", None);
    }
    if now - r.updatedAt < 0 {
      return Decision(Keep, "missing_or_invalid_timestamp", None);
    }
    if r.status == "active" && r.retention == "durable" {
      return Decision(Keep, "durable_keep", Some("active_durable_keep"));
    }
    var matched: Option<Rule> := None;
    var left := policy.rules;
    while left != []
      invariant matched.None? && FirstMatch(left, r) == FirstMatch(policy.rules, r)
      decreases |left|
    {
      var matches := RuleMatches(left[0], r);
      if matches {
        return RuleDecision(left[0], now - r.updatedAt);
      }
      left := left[1..];
    }
    d := Decision(if Allowed(policy.defaultAction).Some? then Allowed(policy.defaultAction).value else Keep,
                  "no_matching_rule", None);
  }

  /** Rule i is the first that matches. */
  predicate FirstMatchAt(rules: seq<Rule>, r: Record, i: int) {
    0 <= i < |rules| && Matches(rules[i], r) && forall j :: 0 <= j < i ==> !Matches(rules[j], r)
  }

  lemma {:induction false} FirstMatchIsFirst(rules: seq<Rule>, r: Record)
    ensures match FirstMatch(rules, r)
            case None => forall i :: 0 <= i < |rules| ==> !Matches(rules[i], r)
            case Some(rule) => exists i :: FirstMatchAt(rules, r, i) && rules[i] == rule
    decreases |rules|
  {
    if rules != [] {
      FirstMatchIsFirst(rules[1..], r);
      if Matches(rules[0], r) {
        assert FirstMatchAt(rules, r, 0);
      } else if FirstMatch(rules[1..], r).Some? {
        var k :| FirstMatchAt(rules[1..], r, k) && rules[1..][k] == FirstMatch(rules[1..], r).value;
        assert forall j :: 0 < j < k + 1 ==> rules[j] == rules[1..][j - 1];
        assert FirstMatchAt(rules, r, k + 1);
      } else {
        assert forall i :: 0 < i < |rules| ==> rules[i] == rules[1..][i - 1];
      }
    }
  }

  /** The ways a policy can ask for retirement. */
  ghost predicate AsksToRetire(policy: Policy, r: Record, age: int) {
    policy.Policy? &&
    ((exists i :: FirstMatchAt(policy.rules, r, i) && policy.rules[i].action == "retire" &&
                  policy.rules[i].expireAfter.After? && age >= policy.rules[i].expireAfter.ms) ||
     ((forall i :: 0 <= i < |policy.rules| ==> !Matches(policy.rules[i], r)) && policy.defaultAction == "retire"))
  }

  /** The ways a policy can call a record stale: the rule's threshold for it was reached
      and the one for its action was not, or the action is "stale" itself. */
  ghost predicate AsksForStale(policy: Policy, r: Record, age: int) {
    policy.Policy? &&
    ((exists i :: FirstMatchAt(policy.rules, r, i) &&
                  var rule := policy.rules[i];
                  if rule.expireAfter.After? && age >= rule.expireAfter.ms then rule.action == "stale"
                  else rule.staleAfter.After? && age >= rule.staleAfter.ms) ||
     ((forall i :: 0 <= i < |policy.rules| ==> !Matches(policy.rules[i], r)) && policy.defaultAction == "stale"))
  }

  /** The record can be judged: not inactive, not durable while active, not from the future. */
  predicate Judged(r: Record, now: int) {
    r.status != "retired" && r.status != "superseded" && !(r.status == "active" && r.retention == "durable") && r.updatedAt <= now
  }

  lemma FirstMatchIsUnique(rules: seq<Rule>, r: Record, i: int, j: int)
    requires FirstMatchAt(rules, r, i) && FirstMatchAt(rules, r, j)
    ensures i == j
  {
  }

  /** The verdict on a record that can be judged is the one of its first matching rule. */
  lemma VerdictOfFirst(r: Record, now: int, policy: Policy, i: int)
    requires policy.Policy? && FirstMatchAt(policy.rules, r, i) && Judged(r, now)
    ensures Verdict(r, now, policy) == RuleDecision(policy.rules[i], now - r.updatedAt)
  {
    FirstMatchIsFirst(policy.rules, r);
    if FirstMatch(policy.rules, r).Some? {
      var k :| FirstMatchAt(policy.rules, r, k) && policy.rules[k] == FirstMatch(policy.rules, r).value;
      FirstMatchIsUnique(policy.rules, r, i, k);
    }
  }

  lemma RuleRetires(rule: Rule, age: int)
    requires rule.Rule?
    ensures RuleDecision(rule, age).action == Action.Retire <==>
            rule.action == "retire" && rule.expireAfter.After? && age >= rule.expireAfter.ms
  {
  }

  lemma RuleCallsStale(rule: Rule, age: int)
    requires rule.Rule?
    ensures RuleDecision(rule, age).action == Stale <==>
            if rule.expireAfter.After? && age >= rule.expireAfter.ms then rule.action == "stale"
            else rule.staleAfter.After? && age >= rule.staleAfter.ms
  {
  }

  /** For any policy: the verdict is retirement exactly for a record that is neither
      inactive nor active and durable nor updated in the future, and for which the
      first matching rule says retire and has expired, or, with no matching rule,
      the default says retire. */
  lemma RetireIff(r: Record, now: int, policy: Policy)
    ensures Verdict(r, now, policy).action == Action.Retire <==> Judged(r, now) && AsksToRetire(policy, r, now - r.updatedAt)
  {
    if policy.Policy? && Judged(r, now) {
      FirstMatchIsFirst(policy.rules, r);
      if i :| FirstMatchAt(policy.rules, r, i) {
        VerdictOfFirst(r, now, policy, i);
        RuleRetires(policy.rules[i], now - r.updatedAt);
        forall j | FirstMatchAt(policy.rules, r, j) ensures j == i {
          FirstMatchIsUnique(policy.rules, r, i, j);
        }
      }
    }
  }

  /** Likewise for the verdict that a record is stale. */
  lemma StaleIff(r: Record, now: int, policy: Policy)
    ensures Verdict(r, now, policy).action == Stale <==> Judged(r, now) && AsksForStale(policy, r, now - r.updatedAt)
  {
    if policy.Policy? && Judged(r, now) {
      FirstMatchIsFirst(policy.rules, r);
      if i :| FirstMatchAt(policy.rules, r, i) {
        VerdictOfFirst(r, now, policy, i);
        RuleCallsStale(policy.rules[i], now - r.updatedAt);
        forall j | FirstMatchAt(policy.rules, r, j) ensures j == i {
          FirstMatchIsUnique(policy.rules, r, i, j);
        }
      }
    }
  }

  predicate Expired(rule: Rule, age: int)
    requires rule.Rule?
  {
    rule.expireAfter.After? && age >= rule.expireAfter.ms
  }

  predicate GoesStale(rule: Rule, age: int)
    requires rule.Rule?
  {
    !Expired(rule, age) && rule.staleAfter.After? && age >= rule.staleAfter.ms
  }

  /** The rule's own reason, else its name, else a general one. */
  predicate IsReasonOf(rule: Rule, reason: string)
    requires rule.Rule?
  {
    if rule.reason.Some? && rule.reason.value != "" then reason == rule.reason.value
    else if rule.name.Some? && rule.name.value != "" then reason == rule.name.value
    else reason == "retention_policy"
  }

  predicate IsPermitted(action: string) { action == "keep" || action == "stale" || action == "retire" }

  predicate IsDestructive(action: string) {
    action == "delete" || action == "promote" || action == "activate" || action == "render"
  }

  lemma ExpiredDecision(rule: Rule, age: int)
    requires rule.Rule? && Expired(rule, age)
    ensures var d := RuleDecision(rule, age);
            d.matchedRule == rule.name &&
            (IsPermitted(rule.action) ==> IsReasonOf(rule, d.reason)) &&
            (!IsPermitted(rule.action) ==> d.action == Keep) &&
            (IsDestructive(rule.action) ==> d.reason == "forbidden_action_forced_keep") &&
            (!IsPermitted(rule.action) && !IsDestructive(rule.action) ==> d.reason == "invalid_action_forced_keep")
  {
  }

  lemma StaleDecision(rule: Rule, age: int)
    requires rule.Rule? && GoesStale(rule, age)
    ensures var d := RuleDecision(rule, age);
            d.matchedRule == rule.name && d.action == Stale &&
            (rule.action == "stale" ==> IsReasonOf(rule, d.reason)) &&
            (rule.action != "stale" ==>
               d.reason == if rule.name.Some? && rule.name.value != "" then rule.name.value + "_stale" else "retention_stale")
  {
  }

  lemma WindowDecision(rule: Rule, age: int)
    requires rule.Rule? && !Expired(rule, age) && !GoesStale(rule, age)
    ensures RuleDecision(rule, age) == Decision(Keep, "within_retention_window", rule.name)
  {
  }

  /** A verdict names the first matching rule.  If that rule's action was carried out, the
      reason is the rule's own, else its name; an action that is not permitted is turned
      into keeping the record, and the reason says so. */
  lemma VerdictNamesRule(r: Record, now: int, policy: Policy, i: int)
    requires policy.Policy? && FirstMatchAt(policy.rules, r, i) && Judged(r, now)
    ensures var rule, age, d := policy.rules[i], now - r.updatedAt, Verdict(r, now, policy);
            d.matchedRule == rule.name &&
            (Expired(rule, age) && IsPermitted(rule.action) ==> IsReasonOf(rule, d.reason)) &&
            (Expired(rule, age) && !IsPermitted(rule.action) ==>
               d.action == Keep &&
               d.reason == if IsDestructive(rule.action) then "forbidden_action_forced_keep" else "invalid_action_forced_keep") &&
            (GoesStale(rule, age) && rule.action == "stale" ==> IsReasonOf(rule, d.reason)) &&
            (GoesStale(rule, age) && rule.action != "stale" ==>
               d.reason == if rule.name.Some? && rule.name.value != "" then rule.name.value + "_stale" else "retention_stale") &&
            (!Expired(rule, age) && !GoesStale(rule, age) ==> d.action == Keep && d.reason == "within_retention_window")
  {
    var rule, age := policy.rules[i], now - r.updatedAt;
    VerdictOfFirst(r, now, policy, i);
    if Expired(rule, age) {
      ExpiredDecision(rule, age);
    } else if GoesStale(rule, age) {
      StaleDecision(rule, age);
    } else {
      WindowDecision(rule, age);
    }
  }

  /** A verdict without a rule names none, but for active and durable records, and says why. */
  lemma VerdictWithoutRule(r: Record, now: int, policy: Policy)
    requires policy.Policy? && Judged(r, now) ==> forall i :: 0 <= i < |policy.rules| ==> !Matches(policy.rules[i], r)
    ensures var d := Verdict(r, now, policy);
            (d.reason == "durable_keep" <==> d.matchedRule == Some("active_durable_keep")) &&
            (d.reason == "durable_keep" <==>
               policy.Policy? && r.status == "active" && r.retention == "durable" && r.updatedAt <= now) &&
            (d.reason == "invalid_policy" <==> policy.NotAPolicy?) &&
            (d.reason == "already_inactive" <==> policy.Policy? && (r.status == "retired" || r.status == "superseded")) &&
            (d.reason == "no_matching_rule" <==> policy.Policy? && Judged(r, now)) &&
            (d.reason == "missing_or_invalid_timestamp" <==>
               policy.Policy? && r.status != "retired" && r.status != "superseded" && r.updatedAt > now) &&
            (d.action != Keep ==> d.reason == "no_matching_rule")
  {
    if policy.Policy? {
      FirstMatchIsFirst(policy.rules, r);
    }
  }

  // ---------------------------------------------------------------------------
  // Matching, key by key
  // ---------------------------------------------------------------------------

  /** The policy asks for that text under the key, or does not have the key. */
  predicate Wants(m: map<string, Value>, key: string, text: string) {
    key in m ==> m[key].Text? && m[key].s == text
  }

  /** The value, taken as a number, is at most x; False and True count 0 and 1. */
  predicate AtMost(v: Value, x: real) {
    match v
    case Text(_, f) => f.Some? && f.value <= x
    case Number(y) => y <= x
    case Boolean(b) => if b then 1.0 <= x else 0.0 <= x
    case Other(_) => false
  }

  predicate AtLeast(v: Value, x: real) {
    match v
    case Text(_, f) => f.Some? && f.value >= x
    case Number(y) => y >= x
    case Boolean(b) => if b then 1.0 >= x else 0.0 >= x
    case Other(_) => false
  }

  predicate IsFalse(v: Value) {
    match v
    case Text(s, _) => s == ""
    case Number(y) => y == 0.0
    case Boolean(b) => !b
    case Other(t) => !t
  }

  const TEXT_KEYS := {"status", "retention", "tier", "record_type", "visibility", "memory_domain"}
  const NUMBER_KEYS := {"min_importance", "max_importance", "source_refs_required"}

  predicate WantsTexts(m: map<string, Value>, r: Record) {
    Wants(m, "status", r.status) && Wants(m, "retention", r.retention) && Wants(m, "tier", r.tier) &&
    Wants(m, "record_type", r.recordType) && Wants(m, "visibility", r.visibility) && Wants(m, "memory_domain", r.memoryDomain)
  }

  predicate WantsNumbers(m: map<string, Value>, r: Record) {
    ("min_importance" in m ==> AtMost(m["min_importance"], r.importance)) &&
    ("max_importance" in m ==> AtLeast(m["max_importance"], r.importance)) &&
    ("source_refs_required" in m ==> IsFalse(m["source_refs_required"]) || r.sourceRefs != {})
  }

  lemma UnknownFieldFails(r: Record, field: string, v: Value)
    requires field !in TEXT_KEYS && field !in NUMBER_KEYS
    ensures !FieldMatches(r, field, v)
  {
  }

  /** A rule matches exactly when it has a match dictionary of known keys only, each text
      equal to the record's, the importance within the bounds, and source references
      present if asked for. */
  lemma MatchesByKey(rule: Rule, r: Record)
    ensures Matches(rule, r) <==>
            rule.Rule? && rule.match_.Some? && rule.match_.value.Keys <= TEXT_KEYS + NUMBER_KEYS &&
            WantsTexts(rule.match_.value, r) && WantsNumbers(rule.match_.value, r)
  {
    if rule.Rule? && rule.match_.Some? {
      var m := rule.match_.value;
      forall field | field in m ensures field !in TEXT_KEYS + NUMBER_KEYS ==> !FieldMatches(r, field, m[field]) {
        if field !in TEXT_KEYS + NUMBER_KEYS {
          UnknownFieldFails(r, field, m[field]);
        }
      }
    }
  }
}
