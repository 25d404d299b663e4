/** What an accepted topology plan says, in terms of the configured definitions alone. */
module TopologyContract {
  import opened Wrappers
  import opened Sequences
  import opened Text
  import opened ConfigReferences
  import opened RetryBackoff
  import opened TopologyNames
  import opened TopologyPlan

  // ---------------------------------------------------------------- names

  /**
    The destinations of every accepted plan: a configured dead-letter exchange or routing key is
    used as it stands, whoever owns the topology, and otherwise the versioned exchange name and
    the queue name are; an external topology always brings its own pair.
    */
  lemma DeadLettersAsConfigured(defs: seq<QueueDefinition>, plans: seq<QueuePlan>, i: nat)
    requires Acceptable(defs) && PlansOf(defs, plans) && i < |defs|
    ensures var d, plan := defs[i], plans[i];
            && (d.deadLetterExchange.Some? ==> plan.deadLetterExchangeName == d.deadLetterExchange.value)
            && (d.deadLetterExchange.None? ==> plan.deadLetterExchangeName == d.exchangeName + ".dlx.v2")
            && (d.deadLetterRoutingKey.Some? ==> plan.deadLetterRoutingKey == d.deadLetterRoutingKey.value)
            && (d.deadLetterRoutingKey.None? ==> plan.deadLetterRoutingKey == d.name)
            && plan.deadLetterQueueName == d.name + ".dlq.v2"
            && (d.ownership.External? ==>
                  && Some(plan.deadLetterExchangeName) == d.deadLetterExchange
                  && Some(plan.deadLetterRoutingKey) == d.deadLetterRoutingKey)
  {
    var d, plan := defs[i], plans[i];
    AcceptedEach(defs, plans, i);
    DeadLettersOfPlan(d, plan);
    if d.ownership.External? { ExternalIsConfigured(d); }
  }

  lemma AcceptedEach(defs: seq<QueueDefinition>, plans: seq<QueuePlan>, i: nat)
    requires Acceptable(defs) && PlansOf(defs, plans) && i < |defs|
    ensures ValidateDefinition(defs[i]).None? && IsPlanOf(defs[i], plans[i])
  {
    assert defs[i] in defs;
  }

  lemma DeadLettersOfPlan(d: QueueDefinition, plan: QueuePlan)
    requires IsPlanOf(d, plan)
    ensures d.deadLetterExchange.Some? ==> plan.deadLetterExchangeName == d.deadLetterExchange.value
    ensures d.deadLetterExchange.None? ==> plan.deadLetterExchangeName == d.exchangeName + ".dlx.v2"
    ensures d.deadLetterRoutingKey.Some? ==> plan.deadLetterRoutingKey == d.deadLetterRoutingKey.value
    ensures d.deadLetterRoutingKey.None? ==> plan.deadLetterRoutingKey == d.name
    ensures plan.deadLetterQueueName == d.name + ".dlq.v2"
  {
  }

  lemma ExternalIsConfigured(d: QueueDefinition)
    requires ValidateDefinition(d).None? && d.ownership.External?
    ensures d.deadLetterExchange.Some? && d.deadLetterRoutingKey.Some?
  {
  }

  /** The retry exchange and the buckets of every accepted plan; buckets are of the queue's own type. */
  lemma RetriesAsConfigured(defs: seq<QueueDefinition>, plans: seq<QueuePlan>, i: nat)
    requires Acceptable(defs) && PlansOf(defs, plans) && i < |defs|
    ensures plans[i].definition == defs[i]
    ensures plans[i].retryExchangeName == defs[i].exchangeName + ".retry.v2"
    ensures forall b :: b in plans[i].retryBuckets ==>
              && b.queueType == defs[i].queueType
              && b.queueName == defs[i].name + ".retry.v2." + Decimal(b.delayMillis) + "ms"
              && b.routingKey == defs[i].name + ".retry." + Decimal(b.delayMillis) + "ms"
  {
  }

  lemma SuffixesDiffer(a: string, b: string)
    ensures a + ".dlx.v2" != b + ".retry.v2"
  {
    var s, t := a + ".dlx.v2", b + ".retry.v2";
    assert s[|s| - 4] == 'x' && t[|t| - 4] == 'y';
  }

  /** A derived dead-letter exchange is never a retry exchange, of whatever queue. */
  lemma DerivedExchangesDiffer(defs: seq<QueueDefinition>, plans: seq<QueuePlan>, i: nat, j: nat)
    requires Acceptable(defs) && PlansOf(defs, plans) && i < |defs| && j < |defs| && defs[i].deadLetterExchange.None?
    ensures plans[i].deadLetterExchangeName != plans[j].retryExchangeName
  {
    DeadLettersAsConfigured(defs, plans, i);
    RetriesAsConfigured(defs, plans, j);
    SuffixesDiffer(defs[i].exchangeName, defs[j].exchangeName);
  }

  // ---------------------------------------------------------------- delays

  /** The spread is the integer nearest to the given part of the delay, the upper one of two. */
  predicate IsSpread(spread: nat, nominal: nat, ratio: real) {
    spread as real - 0.5 <= nominal as real * ratio < spread as real + 0.5
  }

  lemma SpreadIsNearest(p: Policy, nominal: nat, n: nat)
    requires p.ratio >= 0.0
    ensures Spread(p, nominal) == n <==> IsSpread(n, nominal, p.ratio)
  {
    NearestInteger(nominal as real * p.ratio, n);
  }

  lemma NearestInteger(x: real, n: nat)
    requires x >= 0.0
    ensures Round(x) == n <==> n as real - 0.5 <= x < n as real + 0.5
  {
  }

  /** The delays that jitter makes of a nominal one, within base and cap. */
  ghost predicate IsAround(base: nat, cap: nat, ratio: real, nominal: nat, delay: nat) {
    || delay == nominal
    || exists spread: nat :: IsSpread(spread, nominal, ratio)
         && (delay == Min(cap, nominal + spread) || (spread <= nominal && delay == Max(base, nominal - spread)))
  }

  /** The delays of one attempt, by the numbers of the definition: the capped power and what jitter makes of it. */
  ghost predicate IsDelayOf(base: nat, cap: nat, ratio: real, attempt: nat, delay: nat) {
    attempt >= 1 && IsAround(base, cap, ratio, Min(base * Pow2(attempt - 1), cap), delay)
  }

  lemma AroundExactly(p: Policy, nominal: nat, delay: nat)
    requires ValidPolicy(p) && p.base <= nominal <= p.cap
    ensures delay in Candidates(p, nominal) <==> IsAround(p.base, p.cap, p.ratio, nominal, delay)
  {
    SpreadFits(p, nominal);
    forall n: nat ensures IsSpread(n, nominal, p.ratio) <==> n == Spread(p, nominal) {
      SpreadIsNearest(p, nominal, n);
    }
    assert IsSpread(Spread(p, nominal), nominal, p.ratio);
    InCandidates(p, nominal, Spread(p, nominal), delay);
  }

  lemma InCandidates(p: Policy, nominal: nat, spread: nat, delay: nat)
    requires ValidPolicy(p) && p.base <= nominal <= p.cap && spread == Spread(p, nominal) <= nominal
    ensures delay in Candidates(p, nominal) <==>
            delay == nominal || delay == Min(p.cap, nominal + spread) || delay == Max(p.base, nominal - spread)
  {
  }

  lemma CandidatesExactly(p: Policy, attempt: nat, delay: nat)
    requires ValidPolicy(p) && attempt >= 1
    ensures delay in CandidatesAt(p, attempt) <==> IsDelayOf(p.base, p.cap, p.ratio, attempt, delay)
  {
    NominalIsCappedPower(p, attempt);
    AroundExactly(p, Nominal(p, attempt), delay);
  }

  /** Base and cap are the configured ones or 1000 and 60000 milliseconds. */
  ghost predicate Offers(d: QueueDefinition, attempt: nat, delay: nat) {
    && d.retryJitterRatio.Finite?
    && IsDelayOf(if d.retryBackoffMillis.Some? then d.retryBackoffMillis.value else 1_000,
                 if d.maxRetryBackoffMillis.Some? then d.maxRetryBackoffMillis.value else 60_000,
                 d.retryJitterRatio.value, attempt, delay)
  }

  /** Which delays every accepted plan offers for each attempt; beyond the configured number there are none. */
  lemma DelaysAsConfigured(defs: seq<QueueDefinition>, plans: seq<QueuePlan>, i: nat, attempt: nat, delay: nat)
    requires Acceptable(defs) && PlansOf(defs, plans) && i < |defs|
    ensures plans[i].DelaysForAttempt(attempt).Some? <==> 1 <= attempt <= defs[i].retryAttempts
    ensures 1 <= attempt <= defs[i].retryAttempts ==>
              (delay in plans[i].DelaysForAttempt(attempt).value <==> Offers(defs[i], attempt, delay))
  {
    AcceptedEach(defs, plans, i);
    RatioIsFinite(defs[i]);
    PlannedByAttempt(defs[i], plans[i]);
    DelaysOfPlan(defs[i], plans[i], attempt, delay);
  }

  lemma PlannedByAttempt(d: QueueDefinition, plan: QueuePlan)
    requires IsPlanOf(d, plan)
    ensures ValidPolicy(PolicyOf(d)) && plan.retryBucketDelaysByAttempt == ByAttempt(PolicyOf(d))
  {
  }

  lemma DelaysOfPlan(d: QueueDefinition, plan: QueuePlan, attempt: nat, delay: nat)
    requires ValidPolicy(PolicyOf(d)) && plan.retryBucketDelaysByAttempt == ByAttempt(PolicyOf(d))
    requires d.retryJitterRatio.Finite?
    ensures plan.DelaysForAttempt(attempt).Some? <==> 1 <= attempt <= d.retryAttempts
    ensures 1 <= attempt <= d.retryAttempts ==>
              (delay in plan.DelaysForAttempt(attempt).value <==> Offers(d, attempt, delay))
  {
    if 1 <= attempt <= d.retryAttempts { CandidatesExactly(PolicyOf(d), attempt, delay); }
  }

  lemma RatioIsFinite(d: QueueDefinition)
    requires ValidateDefinition(d).None?
    ensures d.retryJitterRatio.Finite?
  {
  }

  // ---------------------------------------------------------------- what is checked of one definition

  /** A name for a queue, an exchange or a route: short, visible at both ends, printable and no reference. */
  predicate IsIdentity(value: string) {
    && value != [] && Utf8Length(value) <= 200
    && !IsWhitespace(value[0]) && !IsWhitespace(value[|value| - 1])
    && (forall i :: 0 <= i < |value| ==> !IsControl(value[i]))
    && ParseConfigReference(value) == None
  }

  lemma IdentityExactly(value: string)
    ensures IdentityIsValid(value) <==> IsIdentity(value)
  {
    if value != [] { Utf8AddsUp(value[..1], value[1..]); assert value == value[..1] + value[1..]; }
  }

  const RULES := 27

  /** The rules for one definition in the order in which they are checked, with the error of breaking each. */
  function RuleAt(d: QueueDefinition, k: nat): (bool, PlanError) {
    if k < 11 then DestinationRule(d, k) else if k < 17 then PolicyRule(d, k)
    else if k < 24 then RetentionRule(d, k) else TypeRule(d, k)
  }

  function DestinationRule(d: QueueDefinition, k: nat): (bool, PlanError) {
    match k
    case 0 => (IsIdentity(d.name), InvalidIdentity(d.name, "name"))
    case 1 => (IsIdentity(d.exchangeName), InvalidIdentity(d.name, "exchange_name"))
    case 2 => (IsIdentity(d.routingKey), InvalidIdentity(d.name, "routing_key"))
    case 3 =>
      (d.deadLetterExchange.None? || IsIdentity(d.deadLetterExchange.value),
       InvalidIdentity(d.name, "dead_letter_exchange"))
    case 4 =>
      (d.deadLetterRoutingKey.None? || IsIdentity(d.deadLetterRoutingKey.value),
       InvalidIdentity(d.name, "dead_letter_routing_key"))
    case 5 => (!d.exclusive, InvalidQueuePolicy(d.name, "exclusive"))
    case 6 =>
      (d.ownership.FrameworkManaged? || d.deadLetterExchange.Some?,
       ExternalDestinationRequired(d.name, "dead_letter_exchange"))
    case 7 =>
      (d.ownership.FrameworkManaged? || d.deadLetterRoutingKey.Some?,
       ExternalDestinationRequired(d.name, "dead_letter_routing_key"))
    case 8 => (1 <= d.concurrency <= 1024, InvalidQueuePolicy(d.name, "concurrency"))
    case 9 => (1 <= d.prefetchCount <= 4096, InvalidQueuePolicy(d.name, "prefetch_count"))
    case _ =>
      (d.deliveryBufferCapacity.None? || 1 <= d.deliveryBufferCapacity.value <= d.prefetchCount,
       InvalidQueuePolicy(d.name, "delivery_buffer_capacity"))
  }

  function PolicyRule(d: QueueDefinition, k: nat): (bool, PlanError) {
    match k
    case 11 => (1 <= d.maxMessageSizeBytes <= 16_777_216, InvalidQueuePolicy(d.name, "max_message_size_bytes"))
    case 12 => (d.retryAttempts <= 100, InvalidQueuePolicy(d.name, "retry_attempts"))
    case 13 =>
      (d.retryJitterRatio.Finite? && 0.0 <= d.retryJitterRatio.value <= 0.5,
       InvalidQueuePolicy(d.name, "retry_jitter_ratio"))
    case 14 =>
      var base := if d.retryBackoffMillis.Some? then d.retryBackoffMillis.value else 1000;
      var cap := if d.maxRetryBackoffMillis.Some? then d.maxRetryBackoffMillis.value else 60000;
      (100 <= base <= 300_000 && base <= cap <= 900_000, InvalidQueuePolicy(d.name, "retry_backoff"))
    case 15 =>
      (d.deliveryExecutionTimeoutMillis.None? || 100 <= d.deliveryExecutionTimeoutMillis.value <= 900_000,
       InvalidQueuePolicy(d.name, "delivery_execution_timeout_millis"))
    case _ =>
      (d.settlementTimeoutMillis.None? || 1 <= d.settlementTimeoutMillis.value <= 60_000,
       InvalidQueuePolicy(d.name, "settlement_timeout_millis"))
  }

  /** A limit of the retention, if there is one: positive, and it fits a signed 64-bit integer. */
  predicate IsLimit(n: nat) { 1 <= n < 0x8000_0000_0000_0000 }

  function RetentionRule(d: QueueDefinition, k: nat): (bool, PlanError) {
    if k == 17 then
      (d.messageTtlMillis.None? || d.messageTtlMillis.value > 0, InvalidQueuePolicy(d.name, "message_ttl_ms"))
    else match d.retention
      case None => (false, MissingRetention(d.name))
      case Some(r) =>
        match k
        case 18 => (IsLimit(r.mainMaxMessages), InvalidRetention(d.name, "main_max_messages"))
        case 19 => (IsLimit(r.mainMaxBytes), InvalidRetention(d.name, "main_max_bytes"))
        case 20 => (IsLimit(r.retryBucketMaxMessages), InvalidRetention(d.name, "retry_bucket_max_messages"))
        case 21 => (IsLimit(r.retryBucketMaxBytes), InvalidRetention(d.name, "retry_bucket_max_bytes"))
        case 22 => (IsLimit(r.deadLetterMaxMessages), InvalidRetention(d.name, "dead_letter_max_messages"))
        case _ => (IsLimit(r.deadLetterMaxBytes), InvalidRetention(d.name, "dead_letter_max_bytes"))
  }

  function TypeRule(d: QueueDefinition, k: nat): (bool, PlanError) {
    match k
    case 24 => (d.queueType.Classic? || d.durable, InvalidQueuePolicy(d.name, "durable"))
    case 25 => (d.queueType.Classic? || !d.autoDelete, InvalidQueuePolicy(d.name, "auto_delete"))
    case _ =>
      (d.maxPriority.None? || (d.queueType.Classic? && 1 <= d.maxPriority.value <= 16),
       InvalidQueuePolicy(d.name, "max_priority"))
  }

  /** The rules before `k` are kept. */
  ghost predicate Keeps(d: QueueDefinition, k: nat) {
    forall j :: 0 <= j < k ==> RuleAt(d, j).0
  }

  ghost predicate BreaksFirst(d: QueueDefinition, k: nat, e: PlanError) {
    Keeps(d, k) && !RuleAt(d, k).0 && RuleAt(d, k).1 == e
  }

  /** Checking the rules from `k` on. */
  function CheckFrom(d: QueueDefinition, k: nat): Option<PlanError>
    decreases RULES - k
  {
    if k >= RULES then None else if RuleAt(d, k).0 then CheckFrom(d, k + 1) else Some(RuleAt(d, k).1)
  }

  lemma {:induction false} CheckFindsFirst(d: QueueDefinition, k: nat)
    requires k <= RULES && Keeps(d, k)
    ensures CheckFrom(d, k).None? <==> Keeps(d, RULES)
    ensures CheckFrom(d, k).Some? ==> exists j: nat :: j < RULES && BreaksFirst(d, j, CheckFrom(d, k).value)
    decreases RULES - k
  {
    if k < RULES {
      if RuleAt(d, k).0 { CheckFindsFirst(d, k + 1); } else { assert BreaksFirst(d, k, RuleAt(d, k).1); }
    }
  }

  lemma CheckOne(d: QueueDefinition, k: nat)
    requires k < RULES
    ensures CheckFrom(d, k) == if RuleAt(d, k).0 then CheckFrom(d, k + 1) else Some(RuleAt(d, k).1)
  {
  }

  lemma TypeChecked(d: QueueDefinition)
    ensures CheckFrom(d, 24) == ValidateQueueType(d)
  {
    CheckOne(d, 24); CheckOne(d, 25); CheckOne(d, 26);
  }

  lemma RetentionChecked(d: QueueDefinition)
    ensures CheckFrom(d, 18) ==
            match d.retention
            case None => Some(MissingRetention(d.name))
            case Some(r) =>
              if ValidateRetention(d.name, r).Some? then ValidateRetention(d.name, r) else CheckFrom(d, 24)
  {
    CheckOne(d, 18); CheckOne(d, 19); CheckOne(d, 20); CheckOne(d, 21); CheckOne(d, 22); CheckOne(d, 23);
  }

  lemma TimesChecked(d: QueueDefinition)
    ensures CheckFrom(d, 15) == ValidateTimes(d)
  {
    CheckOne(d, 15); CheckOne(d, 16); CheckOne(d, 17);
    RetentionChecked(d);
    TypeChecked(d);
  }

  lemma PolicyChecked(d: QueueDefinition)
    ensures CheckFrom(d, 8) == ValidatePolicy(d)
  {
    CheckOne(d, 8); CheckOne(d, 9); CheckOne(d, 10); CheckOne(d, 11); CheckOne(d, 12); CheckOne(d, 13); CheckOne(d, 14);
    TimesChecked(d);
  }

  lemma ValidationChecksRules(d: QueueDefinition)
    ensures CheckFrom(d, 0) == ValidateDefinition(d)
  {
    CheckOne(d, 0); CheckOne(d, 1); CheckOne(d, 2); CheckOne(d, 3);
    CheckOne(d, 4); CheckOne(d, 5); CheckOne(d, 6); CheckOne(d, 7);
    PolicyChecked(d);
    IdentitiesChecked(d);
  }

  lemma IdentitiesChecked(d: QueueDefinition)
    ensures IsIdentity(d.name) <==> IdentityIsValid(d.name)
    ensures IsIdentity(d.exchangeName) <==> IdentityIsValid(d.exchangeName)
    ensures IsIdentity(d.routingKey) <==> IdentityIsValid(d.routingKey)
    ensures d.deadLetterExchange.Some? ==>
              (IsIdentity(d.deadLetterExchange.value) <==> IdentityIsValid(d.deadLetterExchange.value))
    ensures d.deadLetterRoutingKey.Some? ==>
              (IsIdentity(d.deadLetterRoutingKey.value) <==> IdentityIsValid(d.deadLetterRoutingKey.value))
  {
    IdentityExactly(d.name);
    IdentityExactly(d.exchangeName);
    IdentityExactly(d.routingKey);
    if d.deadLetterExchange.Some? { IdentityExactly(d.deadLetterExchange.value); }
    if d.deadLetterRoutingKey.Some? { IdentityExactly(d.deadLetterRoutingKey.value); }
  }

  /** Validation passes exactly the definitions that keep all rules, and reports the first one broken. */
  lemma ValidationFindsFirstFault(d: QueueDefinition)
    ensures ValidateDefinition(d).None? <==> Keeps(d, RULES)
    ensures ValidateDefinition(d).Some? ==> exists k: nat :: k < RULES && BreaksFirst(d, k, ValidateDefinition(d).value)
  {
    ValidationChecksRules(d);
    CheckFindsFirst(d, 0);
  }

  // ---------------------------------------------------------------- what is accepted

  /** Both names of a retry bucket are valid. */
  predicate NamesFit(d: QueueDefinition, delay: nat) {
    && IsIdentity(d.name + ".retry.v2." + Decimal(delay) + "ms")
    && IsIdentity(d.name + ".retry." + Decimal(delay) + "ms")
  }

  /** At most 32 buckets, and every name made for the queue is valid. */
  ghost predicate QueueFits(d: QueueDefinition) {
    && |BucketDelays(d)| <= 32
    && (forall delay :: delay in BucketDelays(d) ==> NamesFit(d, delay))
    && IsIdentity(d.exchangeName + ".retry.v2") && IsIdentity(d.name + ".dlq.v2")
    && IsIdentity(if d.deadLetterExchange.Some? then d.deadLetterExchange.value else d.exchangeName + ".dlx.v2")
    && IsIdentity(if d.deadLetterRoutingKey.Some? then d.deadLetterRoutingKey.value else d.name)
  }

  lemma BucketPasses(d: QueueDefinition, delay: nat)
    ensures AllPass(BucketCheck(d, delay)) <==> NamesFit(d, delay)
  {
    var checks := BucketCheck(d, delay);
    IdentityExactly(RetryQueueName(d.name, delay));
    IdentityExactly(RetryRoutingKey(d.name, delay));
    assert AllPass(checks) <==> Passes(checks[0]) && Passes(checks[1]);
  }

  lemma {:induction false} BucketsPass(d: QueueDefinition, delays: seq<nat>)
    ensures AllPass(BucketChecks(d, delays)) <==> forall delay :: delay in delays ==> NamesFit(d, delay)
  {
    if delays != [] {
      var last := |delays| - 1;
      assert delays == delays[..last] + [delays[last]];
      BucketsPass(d, delays[..last]);
      BucketPasses(d, delays[last]);
      AllPassConcat(BucketChecks(d, delays[..last]), BucketCheck(d, delays[last]));
    }
  }

  lemma DeadLettersPass(d: QueueDefinition)
    ensures AllPass(DeadLetterChecks(d)) <==>
            && IsIdentity(d.name + ".dlq.v2")
            && IsIdentity(if d.deadLetterExchange.Some? then d.deadLetterExchange.value else d.exchangeName + ".dlx.v2")
            && IsIdentity(if d.deadLetterRoutingKey.Some? then d.deadLetterRoutingKey.value else d.name)
  {
    var checks := DeadLetterChecks(d);
    IdentityExactly(DeadLetterExchangeName(d));
    IdentityExactly(DeadLetterQueueName(d.name));
    IdentityExactly(GetOr(d.deadLetterRoutingKey, d.name));
    assert AllPass(checks) <==> Passes(checks[0]) && Passes(checks[1]) && Passes(checks[2]);
  }

  lemma FirstChecksPass(d: QueueDefinition, checks: seq<Check>)
    requires checks == [Derived("retry_exchange_name", RetryExchangeName(d)), BucketCount(|BucketDelays(d)|)]
    ensures AllPass(checks) <==> IsIdentity(d.exchangeName + ".retry.v2") && |BucketDelays(d)| <= 32
  {
    IdentityExactly(RetryExchangeName(d));
    assert AllPass(checks) <==> Passes(checks[0]) && Passes(checks[1]);
  }

  /** One queue compiles exactly when it has at most 32 buckets and all its derived names are valid. */
  lemma CompilesExactly(d: QueueDefinition)
    ensures QueueCompiles(d) <==> QueueFits(d)
  {
    var first := [Derived("retry_exchange_name", RetryExchangeName(d)), BucketCount(|BucketDelays(d)|)];
    var buckets := BucketChecks(d, BucketDelays(d));
    FirstChecksPass(d, first);
    BucketsPass(d, BucketDelays(d));
    DeadLettersPass(d);
    AllPassConcat(first, buckets);
    AllPassConcat(first + buckets, DeadLetterChecks(d));
  }

  lemma {:induction false} NamesApart(defs: seq<QueueDefinition>)
    ensures Distinct(FlatMap(LogicalName, defs)) <==>
            forall i, j :: 0 <= i < j < |defs| ==> defs[i].name != defs[j].name
  {
    if Distinct(FlatMap(LogicalName, defs)) { NamesDistinct(defs); }
    if defs != [] {
      var last := |defs| - 1;
      var rest := defs[..last];
      NamesApart(rest);
      assert defs == rest + [defs[last]];
      Snoc(rest, defs[last]);
      ConcatDistinct(FlatMap(LogicalName, rest), [defs[last].name]);
      if forall i, j :: 0 <= i < j < |defs| ==> defs[i].name != defs[j].name {
        forall x | x in FlatMap(LogicalName, rest) ensures x != defs[last].name {
          InFlatMap(LogicalName, rest, x);
          var i :| 0 <= i < |rest| && x in LogicalName(rest[i]);
          assert rest[i] == defs[i];
        }
      }
    }
  }

  /**
    A topology is accepted exactly when its queues have different names, none of which is derived
    for another; each keeps all rules, has at most 32 buckets and valid derived names; there are at
    most 4096 buckets in all; and no exchange is used with two kinds or by two owners.
    */
  lemma AcceptedExactly(defs: seq<QueueDefinition>)
    ensures Acceptable(defs) <==>
            && (forall i, j :: 0 <= i < j < |defs| ==> defs[i].name != defs[j].name)
            && !SomeNameDerived(defs)
            && (forall d :: d in defs ==> Keeps(d, RULES) && QueueFits(d))
            && |FlatMap(BucketDelays, defs)| <= 4096
            && Consistent(FlatMap(Claims, defs))
  {
    NamesApart(defs);
    if Distinct(FlatMap(LogicalName, defs)) { PhysicalCollisionCriterion(defs); }
    EachExactly(defs);
  }

  lemma EachExactly(defs: seq<QueueDefinition>)
    ensures EachCompiles(defs) <==> forall d :: d in defs ==> Keeps(d, RULES) && QueueFits(d)
  {
    forall d ensures ValidateDefinition(d).None? && QueueCompiles(d) <==> Keeps(d, RULES) && QueueFits(d) {
      ValidationFindsFirstFault(d);
      CompilesExactly(d);
    }
  }
}
