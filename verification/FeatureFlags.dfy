/** Feature-flag rules: deny, allow, percent rollout over the FNV bucket, default. */
module FeatureFlags {
  import opened Basics
  import opened Fnv

  datatype Rollout = Rollout(percent: real, attr: Option<string>)

  datatype Rule = Rule(
    default: Option<bool>,
    variant: Option<string>,
    allow: Option<seq<Utf8>>,
    allowBy: Option<string>,
    deny: Option<seq<Utf8>>,
    denyBy: Option<string>,
    percent: Option<Rollout>)

  datatype Context = Context(userId: Option<Utf8>, workspaceId: Option<Utf8>, attributes: map<string, Utf8>)

  datatype Reason = Static | Percentage

  datatype Decision = Decision(key: Utf8, enabled: bool, variant: string, reason: Reason)

  function NonEmpty(v: Option<Utf8>): Option<Utf8> {
    if v.Some? && v.value != [] then v else None
  }

  function LookupAttr(ctx: Context, name: string): Option<Utf8> {
    if name == "user_id" then NonEmpty(ctx.userId)
    else if name == "workspace_id" then NonEmpty(ctx.workspaceId)
    else NonEmpty(if name in ctx.attributes then Some(ctx.attributes[name]) else None)
  }

  predicate Targets(ids: Option<seq<Utf8>>, attr: Option<string>, ctx: Context) {
    ids.Some? && |ids.value| > 0 &&
    var v := LookupAttr(ctx, attr.GetOr("user_id"));
    v.Some? && v.value in ids.value
  }

  function Decide(key: Utf8, rule: Rule, enabled: bool, reason: Reason): Decision {
    Decision(key, enabled,
             if enabled && rule.variant.Some? && rule.variant.value != "" then rule.variant.value
             else if enabled then "on" else "off",
             reason)
  }

  function Identifier(r: Rollout, ctx: Context): Utf8 {
    LookupAttr(ctx, r.attr.GetOr("user_id")).GetOr([])
  }

  function EvaluateRule(key: Utf8, rule: Rule, ctx: Context): Decision {
    if Targets(rule.deny, rule.denyBy, ctx) then Decide(key, rule, false, Static)
    else if Targets(rule.allow, rule.allowBy, ctx) then Decide(key, rule, true, Static)
    else if rule.percent.Some? then
      Decide(key, rule, InPercent(key, Identifier(rule.percent.value, ctx), rule.percent.value.percent), Percentage)
    else Decide(key, rule, rule.default.GetOr(false), Static)
  }

  class StaticProvider {
    var rules: map<Utf8, Rule>

    constructor (rules: map<Utf8, Rule>)
      ensures this.rules == rules
    {
      this.rules := rules;
    }

    method Set(key: Utf8, rule: Rule)
      modifies this
      ensures rules == old(rules)[key := rule]
    {
      rules := rules[key := rule];
    }

    method LoadRules(rules: map<Utf8, Rule>)
      modifies this
      ensures this.rules == rules
    {
      this.rules := rules;
    }

    method Lookup(key: Utf8, ctx: Context) returns (d: Option<Decision>)
      ensures d == if key in rules then Some(EvaluateRule(key, rules[key], ctx)) else None
    {
      if key !in rules {
        return None;
      }
      d := Some(EvaluateRule(key, rules[key], ctx));
    }
  }

  /*** What the rules promise ***/

  // A denied identity is off, whatever the allow list, the rollout, the default or the variant.
  lemma DenyWins(key: Utf8, rule: Rule, ctx: Context)
    requires Targets(rule.deny, rule.denyBy, ctx)
    ensures var d := EvaluateRule(key, rule, ctx); !d.enabled && d.variant == "off"
    ensures forall allow, percent, default ::
      !EvaluateRule(key, rule.(allow := allow, percent := percent, default := default), ctx).enabled
  {
  }

  // A flag that is off never hands out the variant of the experiment arm.
  lemma OffHasNoVariant(key: Utf8, rule: Rule, ctx: Context)
    requires rule.variant != Some("off")
    ensures EvaluateRule(key, rule, ctx).variant == "off" <==> !EvaluateRule(key, rule, ctx).enabled
  {
  }

  function WithPercent(rule: Rule, percent: real): Rule
    requires rule.percent.Some?
  {
    rule.(percent := Some(rule.percent.value.(percent := percent)))
  }

  // Moving a rollout from `p` to `q >= p` turns the flag off for nobody, and on for exactly the
  // identities no list targets whose bucket lies in [p, q).
  lemma RaisingPercent(key: Utf8, rule: Rule, ctx: Context, p: real, q: real)
    requires rule.percent.Some? && p <= q
    ensures var was, now := EvaluateRule(key, WithPercent(rule, p), ctx).enabled, EvaluateRule(key, WithPercent(rule, q), ctx).enabled;
      && (was ==> now)
      && (now && !was <==>
            !Targets(rule.deny, rule.denyBy, ctx) && !Targets(rule.allow, rule.allowBy, ctx)
            && p <= BucketOf(key, Identifier(rule.percent.value, ctx)) as real < q)
  {
    InPercentIsThreshold(key, Identifier(rule.percent.value, ctx), p);
    InPercentIsThreshold(key, Identifier(rule.percent.value, ctx), q);
  }

  // Over a whole rollout that never lowers the percentage, an identity once on stays on.
  lemma {:induction false} RolloutNeverTurnsOff(key: Utf8, rule: Rule, ctx: Context, steps: seq<real>, i: nat, j: nat)
    requires rule.percent.Some? && i <= j < |steps|
    requires forall k :: 0 <= k < |steps| - 1 ==> steps[k] <= steps[k + 1]
    requires EvaluateRule(key, WithPercent(rule, steps[i]), ctx).enabled
    ensures EvaluateRule(key, WithPercent(rule, steps[j]), ctx).enabled
    decreases j
  {
    if i < j {
      RolloutNeverTurnsOff(key, rule, ctx, steps, i, j - 1);
      RaisingPercent(key, rule, ctx, steps[j - 1], steps[j]);
    }
  }

  /*** When a flag is on ***/

  // The context holds the value `v`, which is not empty, in the field of that name.
  predicate Holds(ctx: Context, field: string, v: Utf8) {
    v != [] &&
    match field
    case "user_id" => ctx.userId == Some(v)
    case "workspace_id" => ctx.workspaceId == Some(v)
    case _ => field in ctx.attributes && ctx.attributes[field] == v
  }

  // A list of a rule names what the context holds in the list's field, the user's id by default.
  ghost predicate Names(ids: Option<seq<Utf8>>, attr: Option<string>, ctx: Context) {
    ids.Some? && exists v :: v in ids.value && Holds(ctx, if attr.Some? then attr.value else "user_id", v)
  }

  // What a rollout identifies the context by: the field's value, or nothing.
  ghost predicate Identifies(ctx: Context, field: string, v: Utf8) {
    if v == [] then forall u :: !Holds(ctx, field, u) else Holds(ctx, field, v)
  }

  lemma LookupIsHolds(ctx: Context, field: string)
    ensures forall v :: LookupAttr(ctx, field) == Some(v) <==> Holds(ctx, field, v)
    ensures forall v :: Identifies(ctx, field, v) <==> v == LookupAttr(ctx, field).GetOr([])
  {
    var found := LookupAttr(ctx, field);
    if found.Some? {
      assert Holds(ctx, field, found.value);
    }
  }

  lemma TargetsIsNames(ids: Option<seq<Utf8>>, attr: Option<string>, ctx: Context)
    ensures Targets(ids, attr, ctx) <==> Names(ids, attr, ctx)
  {
    LookupIsHolds(ctx, attr.GetOr("user_id"));
  }

  // The whole decision: on exactly if the context is not denied, and is allowed, or falls below
  // the rollout's percentage, or, without a rollout, the default is on.
  lemma OnIff(key: Utf8, rule: Rule, ctx: Context)
    ensures EvaluateRule(key, rule, ctx).enabled <==>
      && !Names(rule.deny, rule.denyBy, ctx)
      && (|| Names(rule.allow, rule.allowBy, ctx)
          || (rule.percent.Some? && exists v ::
                && Identifies(ctx, if rule.percent.value.attr.Some? then rule.percent.value.attr.value else "user_id", v)
                && BucketOf(key, v) as real < rule.percent.value.percent)
          || (rule.percent.None? && rule.default == Some(true)))
  {
    TargetsIsNames(rule.deny, rule.denyBy, ctx);
    TargetsIsNames(rule.allow, rule.allowBy, ctx);
    if rule.percent.Some? {
      var r := rule.percent.value;
      LookupIsHolds(ctx, r.attr.GetOr("user_id"));
      InPercentIsThreshold(key, Identifier(r, ctx), r.percent);
      assert Identifies(ctx, r.attr.GetOr("user_id"), Identifier(r, ctx));
    }
  }

  // What comes with it: the key asked for; as variant the rule's if the flag is on and the rule
  // names one, else "on" or "off"; as reason the rollout exactly if no list and no default decided.
  lemma DecisionCarries(key: Utf8, rule: Rule, ctx: Context)
    ensures var d := EvaluateRule(key, rule, ctx);
      && d.key == key
      && (!d.enabled ==> d.variant == "off")
      && (d.enabled ==> d.variant == if rule.variant == None || rule.variant == Some("") then "on" else rule.variant.value)
      && (d.reason == Percentage <==>
            rule.percent.Some? && !Names(rule.deny, rule.denyBy, ctx) && !Names(rule.allow, rule.allowBy, ctx))
  {
    TargetsIsNames(rule.deny, rule.denyBy, ctx);
    TargetsIsNames(rule.allow, rule.allowBy, ctx);
  }

  // Allowing one more identity turns the flag off for nobody, and on for exactly the contexts that
  // hold it, are not denied, and were off.
  lemma AllowingOne(key: Utf8, rule: Rule, ctx: Context, id: Utf8)
    ensures var more := rule.(allow := Some((if rule.allow.Some? then rule.allow.value else []) + [id]));
      var was, now := EvaluateRule(key, rule, ctx).enabled, EvaluateRule(key, more, ctx).enabled;
      && (was ==> now)
      && (now && !was <==>
            && !was && !Names(rule.deny, rule.denyBy, ctx)
            && Holds(ctx, if rule.allowBy.Some? then rule.allowBy.value else "user_id", id))
  {
    var before := if rule.allow.Some? then rule.allow.value else [];
    var more := rule.(allow := Some(before + [id]));
    OnIff(key, rule, ctx);
    OnIff(key, more, ctx);
    assert forall v :: v in before + [id] <==> v in before || v == id;
  }

  // Denying one more turns it off for exactly the contexts that hold it and were on.
  lemma DenyingOne(key: Utf8, rule: Rule, ctx: Context, id: Utf8)
    ensures var less := rule.(deny := Some((if rule.deny.Some? then rule.deny.value else []) + [id]));
      EvaluateRule(key, less, ctx).enabled <==>
        EvaluateRule(key, rule, ctx).enabled && !Holds(ctx, if rule.denyBy.Some? then rule.denyBy.value else "user_id", id)
  {
    var before := if rule.deny.Some? then rule.deny.value else [];
    OnIff(key, rule, ctx);
    OnIff(key, rule.(deny := Some(before + [id])), ctx);
    assert forall v :: v in before + [id] <==> v in before || v == id;
  }
}
