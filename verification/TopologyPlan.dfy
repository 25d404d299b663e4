/** The RabbitMQ topology compiler: one plan per queue, then global uniqueness and consistency. */
module TopologyPlan {
  import opened Wrappers
  import opened Sequences
  import opened Text
  import opened ConfigReferences
  import opened RetryBackoff
  import opened TopologyNames

  const MAX_IDENTITY_BYTES := 200
  const MAX_QUEUE_CONCURRENCY := 1_024
  const MAX_QUEUE_PREFETCH := 4_096
  const MAX_QUEUE_MESSAGE_SIZE_BYTES := 16 * 1024 * 1024
  const MAX_QUEUE_RETRY_ATTEMPTS := 100
  const MAX_RETRY_BUCKETS_PER_QUEUE := 32
  const MAX_RETRY_BUCKETS_PER_TOPOLOGY := 4_096
  const I64_MAX := 0x7FFF_FFFF_FFFF_FFFF

  datatype ExchangeKind = Direct
  datatype QueueType = Classic | Quorum
  datatype Ownership = FrameworkManaged | External

  /** A configured ratio; infinities and not-a-number are one case. */
  datatype Ratio = Finite(value: real) | NotFinite

  datatype Retention = Retention(
    mainMaxMessages: nat, mainMaxBytes: nat,
    retryBucketMaxMessages: nat, retryBucketMaxBytes: nat,
    deadLetterMaxMessages: nat, deadLetterMaxBytes: nat)

  datatype QueueDefinition = QueueDefinition(
    name: string, exchangeName: string, routingKey: string,
    exchangeKind: ExchangeKind, queueType: QueueType, ownership: Ownership,
    concurrency: nat, prefetchCount: nat, deliveryBufferCapacity: Option<nat>,
    retryAttempts: nat, retryBackoffMillis: Option<nat>, maxRetryBackoffMillis: Option<nat>, retryJitterRatio: Ratio,
    deliveryExecutionTimeoutMillis: Option<nat>, settlementTimeoutMillis: Option<nat>,
    durable: bool, maxMessageSizeBytes: nat, retention: Option<Retention>,
    deadLetterExchange: Option<string>, deadLetterRoutingKey: Option<string>,
    messageTtlMillis: Option<nat>, exclusive: bool, autoDelete: bool, maxPriority: Option<nat>)

  datatype PlanError =
    | DuplicateQueueName(name: string)
    | InvalidIdentity(queue: string, field: string)
    | InvalidDerivedIdentity(queue: string, resource: string)
    | MissingRetention(queue: string)
    | InvalidRetention(queue: string, field: string)
    | InvalidQueuePolicy(queue: string, field: string)
    | RetryBucketLimitExceeded(queue: string, count: nat, maximum: nat)
    | TopologyRetryBucketLimitExceeded(count: nat, maximum: nat)
    | ExternalDestinationRequired(queue: string, field: string)
    | PhysicalQueueNameCollision(name: string)
    | ExchangeContractConflict(name: string)

  function GetOr<T>(o: Option<T>, default: T): T { match o case Some(x) => x case None => default }

  predicate IdentityIsValid(value: string) {
    && 1 <= Utf8Length(value) <= MAX_IDENTITY_BYTES
    && Trimmed(value)
    && (forall i :: 0 <= i < |value| ==> !IsControl(value[i]))
    && ParseConfigReference(value).None?
  }

  predicate OptionalIdentityIsValid(value: Option<string>) {
    value.Some? ==> IdentityIsValid(value.value)
  }

  // ---------------------------------------------------------------- one definition

  /** The first fault of one definition taken by itself, in checking order. */
  function ValidateDefinition(d: QueueDefinition): Option<PlanError> {
    if !IdentityIsValid(d.name) then Some(InvalidIdentity(d.name, "name"))
    else if !IdentityIsValid(d.exchangeName) then Some(InvalidIdentity(d.name, "exchange_name"))
    else if !IdentityIsValid(d.routingKey) then Some(InvalidIdentity(d.name, "routing_key"))
    else if !OptionalIdentityIsValid(d.deadLetterExchange) then Some(InvalidIdentity(d.name, "dead_letter_exchange"))
    else if !OptionalIdentityIsValid(d.deadLetterRoutingKey) then
      Some(InvalidIdentity(d.name, "dead_letter_routing_key"))
    else if d.exclusive then Some(InvalidQueuePolicy(d.name, "exclusive"))
    else if d.ownership.External? && d.deadLetterExchange.None? then
      Some(ExternalDestinationRequired(d.name, "dead_letter_exchange"))
    else if d.ownership.External? && d.deadLetterRoutingKey.None? then
      Some(ExternalDestinationRequired(d.name, "dead_letter_routing_key"))
    else ValidatePolicy(d)
  }

  function ValidatePolicy(d: QueueDefinition): Option<PlanError> {
    if !(1 <= d.concurrency <= MAX_QUEUE_CONCURRENCY) then Some(InvalidQueuePolicy(d.name, "concurrency"))
    else if !(1 <= d.prefetchCount <= MAX_QUEUE_PREFETCH) then Some(InvalidQueuePolicy(d.name, "prefetch_count"))
    else if !(1 <= GetOr(d.deliveryBufferCapacity, d.prefetchCount) <= d.prefetchCount) then
      Some(InvalidQueuePolicy(d.name, "delivery_buffer_capacity"))
    else if !(1 <= d.maxMessageSizeBytes <= MAX_QUEUE_MESSAGE_SIZE_BYTES) then
      Some(InvalidQueuePolicy(d.name, "max_message_size_bytes"))
    else if d.retryAttempts > MAX_QUEUE_RETRY_ATTEMPTS then Some(InvalidQueuePolicy(d.name, "retry_attempts"))
    else if d.retryJitterRatio.NotFinite? || !(0.0 <= d.retryJitterRatio.value <= 0.5) then
      Some(InvalidQueuePolicy(d.name, "retry_jitter_ratio"))
    else if !(100 <= GetOr(d.retryBackoffMillis, 1_000) <= 300_000)
         || !(GetOr(d.retryBackoffMillis, 1_000) <= GetOr(d.maxRetryBackoffMillis, 60_000) <= 900_000) then
      Some(InvalidQueuePolicy(d.name, "retry_backoff"))
    else ValidateTimes(d)
  }

  function ValidateTimes(d: QueueDefinition): Option<PlanError> {
    if !(100 <= GetOr(d.deliveryExecutionTimeoutMillis, 30_000) <= 900_000) then
      Some(InvalidQueuePolicy(d.name, "delivery_execution_timeout_millis"))
    else if !(1 <= GetOr(d.settlementTimeoutMillis, 5_000) <= 60_000) then
      Some(InvalidQueuePolicy(d.name, "settlement_timeout_millis"))
    else if d.messageTtlMillis == Some(0) then Some(InvalidQueuePolicy(d.name, "message_ttl_ms"))
    else match d.retention
      case None => Some(MissingRetention(d.name))
      case Some(r) => if ValidateRetention(d.name, r).Some? then ValidateRetention(d.name, r) else ValidateQueueType(d)
  }

  function ValidateRetention(name: string, r: Retention): Option<PlanError> {
    if !(1 <= r.mainMaxMessages <= I64_MAX) then Some(InvalidRetention(name, "main_max_messages"))
    else if !(1 <= r.mainMaxBytes <= I64_MAX) then Some(InvalidRetention(name, "main_max_bytes"))
    else if !(1 <= r.retryBucketMaxMessages <= I64_MAX) then Some(InvalidRetention(name, "retry_bucket_max_messages"))
    else if !(1 <= r.retryBucketMaxBytes <= I64_MAX) then Some(InvalidRetention(name, "retry_bucket_max_bytes"))
    else if !(1 <= r.deadLetterMaxMessages <= I64_MAX) then Some(InvalidRetention(name, "dead_letter_max_messages"))
    else if !(1 <= r.deadLetterMaxBytes <= I64_MAX) then Some(InvalidRetention(name, "dead_letter_max_bytes"))
    else None
  }

  function ValidateQueueType(d: QueueDefinition): Option<PlanError> {
    match d.queueType
    case Classic =>
      if d.maxPriority.Some? && !(1 <= d.maxPriority.value <= 16) then Some(InvalidQueuePolicy(d.name, "max_priority"))
      else None
    case Quorum =>
      if !d.durable then Some(InvalidQueuePolicy(d.name, "durable"))
      else if d.autoDelete then Some(InvalidQueuePolicy(d.name, "auto_delete"))
      else if d.maxPriority.Some? then Some(InvalidQueuePolicy(d.name, "max_priority"))
      else None
  }

  function PolicyOf(d: QueueDefinition): Policy {
    Policy(GetOr(d.retryBackoffMillis, 1_000), GetOr(d.maxRetryBackoffMillis, 60_000),
           if d.retryJitterRatio.Finite? then d.retryJitterRatio.value else -1.0, d.retryAttempts)
  }

  lemma ValidatedPolicy(d: QueueDefinition)
    requires ValidateDefinition(d).None?
    ensures ValidPolicy(PolicyOf(d))
  {
  }

  // ---------------------------------------------------------------- the plan of one queue

  datatype RetryBucket = RetryBucket(queueName: string, routingKey: string, delayMillis: nat, queueType: QueueType)

  datatype QueuePlan = QueuePlan(
    definition: QueueDefinition,
    retryExchangeName: string,
    retryBuckets: seq<RetryBucket>,
    retryBucketDelaysByAttempt: seq<seq<nat>>,
    deadLetterExchangeName: string,
    deadLetterQueueName: string,
    deadLetterRoutingKey: string)
  {
    /** The delays eligible for one retry attempt, counted from one. */
    function DelaysForAttempt(attempt: nat): Option<seq<nat>> {
      if 1 <= attempt <= |retryBucketDelaysByAttempt| then Some(retryBucketDelaysByAttempt[attempt - 1]) else None
    }
  }

  function BucketDelays(d: QueueDefinition): seq<nat> {
    if ValidPolicy(PolicyOf(d)) then RetryBucketDelays(ByAttempt(PolicyOf(d))) else []
  }

  function RetryExchangeName(d: QueueDefinition): string { d.exchangeName + ".retry.v2" }

  function DeadLetterExchangeName(d: QueueDefinition): string {
    GetOr(d.deadLetterExchange, d.exchangeName + ".dlx.v2")
  }

  function BucketOf(d: QueueDefinition, delay: nat): RetryBucket {
    RetryBucket(RetryQueueName(d.name, delay), RetryRoutingKey(d.name, delay), delay, d.queueType)
  }

  ghost predicate IsPlanOf(d: QueueDefinition, plan: QueuePlan) {
    && ValidPolicy(PolicyOf(d))
    && plan.definition == d
    && plan.retryExchangeName == RetryExchangeName(d)
    && plan.retryBucketDelaysByAttempt == ByAttempt(PolicyOf(d))
    && |plan.retryBuckets| == |BucketDelays(d)|
    && (forall i :: 0 <= i < |plan.retryBuckets| ==> plan.retryBuckets[i] == BucketOf(d, BucketDelays(d)[i]))
    && plan.deadLetterExchangeName == DeadLetterExchangeName(d)
    && plan.deadLetterQueueName == DeadLetterQueueName(d.name)
    && plan.deadLetterRoutingKey == GetOr(d.deadLetterRoutingKey, d.name)
  }

  /** What the compiler of one queue checks, in checking order. */
  datatype Check = Derived(resource: string, value: string) | BucketCount(count: nat)

  predicate Passes(check: Check) {
    match check
    case Derived(_, value) => IdentityIsValid(value)
    case BucketCount(count) => count <= MAX_RETRY_BUCKETS_PER_QUEUE
  }

  function ErrorOf(queue: string, check: Check): PlanError {
    match check
    case Derived(resource, _) => InvalidDerivedIdentity(queue, resource)
    case BucketCount(count) => RetryBucketLimitExceeded(queue, count, MAX_RETRY_BUCKETS_PER_QUEUE)
  }

  function BucketCheck(d: QueueDefinition, delay: nat): seq<Check> {
    [Derived("retry_bucket.queue_name", RetryQueueName(d.name, delay)),
     Derived("retry_bucket.routing_key", RetryRoutingKey(d.name, delay))]
  }

  function BucketChecks(d: QueueDefinition, delays: seq<nat>): seq<Check> {
    if delays == [] then [] else BucketChecks(d, delays[..|delays| - 1]) + BucketCheck(d, delays[|delays| - 1])
  }

  function DeadLetterChecks(d: QueueDefinition): seq<Check> {
    [Derived("dead_letter_exchange_name", DeadLetterExchangeName(d)),
     Derived("dead_letter_queue_name", DeadLetterQueueName(d.name)),
     Derived("dead_letter_routing_key", GetOr(d.deadLetterRoutingKey, d.name))]
  }

  function Checks(d: QueueDefinition): seq<Check> {
    [Derived("retry_exchange_name", RetryExchangeName(d)), BucketCount(|BucketDelays(d)|)]
    + BucketChecks(d, BucketDelays(d)) + DeadLetterChecks(d)
  }

  ghost predicate AllPass(checks: seq<Check>) {
    forall i :: 0 <= i < |checks| ==> Passes(checks[i])
  }

  ghost predicate FailsAt(queue: string, checks: seq<Check>, i: nat, e: PlanError) {
    i < |checks| && !Passes(checks[i]) && AllPass(checks[..i]) && e == ErrorOf(queue, checks[i])
  }

  /** The error is that of the first check that fails. */
  ghost predicate FailsFirst(queue: string, checks: seq<Check>, e: PlanError) {
    exists i: nat :: FailsAt(queue, checks, i, e)
  }

  lemma AllPassConcat(a: seq<Check>, b: seq<Check>)
    ensures AllPass(a + b) <==> AllPass(a) && AllPass(b)
  {
    if AllPass(a + b) {
      forall i | 0 <= i < |a| ensures Passes(a[i]) { assert Passes((a + b)[i]); }
      forall i | 0 <= i < |b| ensures Passes(b[i]) { assert Passes((a + b)[|a| + i]); }
    }
  }

  lemma FailsInPart(queue: string, a: seq<Check>, b: seq<Check>, c: seq<Check>, e: PlanError)
    requires AllPass(a) && FailsFirst(queue, b, e)
    ensures FailsFirst(queue, a + b + c, e) && !AllPass(a + b + c)
  {
    var i: nat :| FailsAt(queue, b, i, e);
    var all := a + b + c;
    assert all[|a| + i] == b[i] && all[..|a| + i] == a + b[..i];
    AllPassConcat(a, b[..i]);
    assert FailsAt(queue, all, |a| + i, e);
  }

  ghost predicate QueueCompiles(d: QueueDefinition) { AllPass(Checks(d)) }

  method ValidateDerivedIdentity(d: QueueDefinition, resource: string, value: string) returns (e: Option<PlanError>)
    ensures e.None? <==> AllPass([Derived(resource, value)])
    ensures e.Some? ==> FailsFirst(d.name, [Derived(resource, value)], e.value)
  {
    if IdentityIsValid(value) {
      return None;
    }
    var checks := [Derived(resource, value)];
    e := Some(InvalidDerivedIdentity(d.name, resource));
    assert !Passes(checks[0]) && FailsAt(d.name, checks, 0, e.value);
  }

  method CompileBucket(d: QueueDefinition, delay: nat) returns (r: Result<RetryBucket, PlanError>)
    ensures r.Ok? ==> AllPass(BucketCheck(d, delay)) && r.value == BucketOf(d, delay)
    ensures r.Err? ==> FailsFirst(d.name, BucketCheck(d, delay), r.error)
  {
    var bucket := RetryBucket(d.name + ".retry.v2." + Decimal(delay) + "ms", d.name + ".retry." + Decimal(delay) + "ms",
                              delay, d.queueType);
    ghost var q := [Derived("retry_bucket.queue_name", bucket.queueName)];
    ghost var k := [Derived("retry_bucket.routing_key", bucket.routingKey)];
    assert BucketCheck(d, delay) == [] + q + k == q + k + [] == q + k;
    AllPassConcat(q, k);
    var fault := ValidateDerivedIdentity(d, "retry_bucket.queue_name", bucket.queueName);
    if fault.Some? {
      FailsInPart(d.name, [], q, k, fault.value);
      return Err(fault.value);
    }
    fault := ValidateDerivedIdentity(d, "retry_bucket.routing_key", bucket.routingKey);
    if fault.Some? {
      FailsInPart(d.name, q, k, [], fault.value);
      return Err(fault.value);
    }
    r := Ok(bucket);
  }

  lemma {:induction false} BucketChecksSplit(d: QueueDefinition, delays: seq<nat>, i: nat) returns (rest: seq<Check>)
    requires i < |delays|
    ensures BucketChecks(d, delays) == BucketChecks(d, delays[..i]) + BucketCheck(d, delays[i]) + rest
  {
    var last := |delays| - 1;
    if i == last {
      rest := [];
    } else {
      var more := BucketChecksSplit(d, delays[..last], i);
      assert delays[..last][..i] == delays[..i];
      rest := more + BucketCheck(d, delays[last]);
    }
  }

  method CompileBuckets(d: QueueDefinition, delays: seq<nat>) returns (r: Result<seq<RetryBucket>, PlanError>)
    ensures r.Ok? ==> AllPass(BucketChecks(d, delays)) && |r.value| == |delays|
    ensures r.Ok? ==> forall i :: 0 <= i < |delays| ==> r.value[i] == BucketOf(d, delays[i])
    ensures r.Err? ==> FailsFirst(d.name, BucketChecks(d, delays), r.error)
  {
    var buckets: seq<RetryBucket> := [];
    for i := 0 to |delays|
      invariant |buckets| == i && AllPass(BucketChecks(d, delays[..i]))
      invariant forall j :: 0 <= j < i ==> buckets[j] == BucketOf(d, delays[j])
    {
      var bucket := CompileBucket(d, delays[i]);
      if bucket.Err? {
        ghost var rest := BucketChecksSplit(d, delays, i);
        FailsInPart(d.name, BucketChecks(d, delays[..i]), BucketCheck(d, delays[i]), rest, bucket.error);
        return Err(bucket.error);
      }
      assert delays[..i + 1][..i] == delays[..i];
      AllPassConcat(BucketChecks(d, delays[..i]), BucketCheck(d, delays[i]));
      buckets := buckets + [bucket.value];
    }
    assert delays[..|delays|] == delays;
    r := Ok(buckets);
  }

  /** The names made for dead letters, or the first that is not a valid identity. */
  method DeriveDeadLetterNames(d: QueueDefinition) returns (r: Result<(string, string, string), PlanError>)
    ensures r.Ok? ==> AllPass(DeadLetterChecks(d))
    ensures r.Ok? ==>
              r.value == (DeadLetterExchangeName(d), DeadLetterQueueName(d.name), GetOr(d.deadLetterRoutingKey, d.name))
    ensures r.Err? ==> FailsFirst(d.name, DeadLetterChecks(d), r.error)
  {
    var exchange, queue, key := d.exchangeName + ".dlx.v2", d.name + ".dlq.v2", d.name;
    if d.deadLetterExchange.Some? {
      exchange := d.deadLetterExchange.value;
    }
    if d.deadLetterRoutingKey.Some? {
      key := d.deadLetterRoutingKey.value;
    }
    ghost var x := [Derived("dead_letter_exchange_name", exchange)];
    ghost var q := [Derived("dead_letter_queue_name", queue)];
    ghost var k := [Derived("dead_letter_routing_key", key)];
    assert DeadLetterChecks(d) == [] + x + (q + k) == x + q + k == (x + q) + k + [];
    AllPassConcat(x, q);
    AllPassConcat(x + q, k);
    var fault := ValidateDerivedIdentity(d, "dead_letter_exchange_name", exchange);
    if fault.Some? {
      FailsInPart(d.name, [], x, q + k, fault.value);
      return Err(fault.value);
    }
    fault := ValidateDerivedIdentity(d, "dead_letter_queue_name", queue);
    if fault.Some? {
      FailsInPart(d.name, x, q, k, fault.value);
      return Err(fault.value);
    }
    fault := ValidateDerivedIdentity(d, "dead_letter_routing_key", key);
    if fault.Some? {
      FailsInPart(d.name, x + q, k, [], fault.value);
      return Err(fault.value);
    }
    r := Ok((exchange, queue, key));
  }

  /** Checks one queue's derived names and bucket count; the error is that of the first failing check. */
  method CompileQueue(d: QueueDefinition) returns (r: Result<QueuePlan, PlanError>)
    requires ValidateDefinition(d).None?
    ensures r.Ok? <==> QueueCompiles(d)
    ensures r.Ok? ==> IsPlanOf(d, r.value)
    ensures r.Err? ==> FailsFirst(d.name, Checks(d), r.error)
  {
    ValidatedPolicy(d);
    var retryExchange := d.exchangeName + ".retry.v2";
    var byAttempt := RetryBucketDelaysByAttempt(PolicyOf(d));
    var delays := RetryBucketDelays(byAttempt);
    ghost var x, n := [Derived("retry_exchange_name", retryExchange)], [BucketCount(|delays|)];
    ghost var b, l := BucketChecks(d, delays), DeadLetterChecks(d);
    ChecksInOrder(d, x, n, b, l);
    var fault := ValidateDerivedIdentity(d, "retry_exchange_name", retryExchange);
    if fault.Some? {
      FailsInPart(d.name, [], x, n + b + l, fault.value);
      return Err(fault.value);
    }
    if |delays| > MAX_RETRY_BUCKETS_PER_QUEUE {
      r := Err(RetryBucketLimitExceeded(d.name, |delays|, MAX_RETRY_BUCKETS_PER_QUEUE));
      assert !Passes(n[0]) && FailsAt(d.name, n, 0, r.error);
      FailsInPart(d.name, x, n, b + l, r.error);
      return;
    }
    var buckets := CompileBuckets(d, delays);
    if buckets.Err? {
      FailsInPart(d.name, x + n, b, l, buckets.error);
      return Err(buckets.error);
    }
    var names := DeriveDeadLetterNames(d);
    if names.Err? {
      FailsInPart(d.name, x + n + b, l, [], names.error);
      return Err(names.error);
    }
    var (exchange, queue, key) := names.value;
    r := Ok(QueuePlan(d, retryExchange, buckets.value, byAttempt, exchange, queue, key));
  }

  lemma ChecksInOrder(d: QueueDefinition, x: seq<Check>, n: seq<Check>, b: seq<Check>, l: seq<Check>)
    requires x == [Derived("retry_exchange_name", RetryExchangeName(d))] && n == [BucketCount(|BucketDelays(d)|)]
    requires b == BucketChecks(d, BucketDelays(d)) && l == DeadLetterChecks(d)
    ensures Checks(d) == [] + x + (n + b + l) == x + n + (b + l) == (x + n) + b + l == (x + n + b) + l + []
    ensures AllPass(x + n) <==> AllPass(x) && AllPass(n)
    ensures AllPass(x + n + b) <==> AllPass(x + n) && AllPass(b)
    ensures AllPass(Checks(d)) <==> AllPass(x + n + b) && AllPass(l)
  {
    AllPassConcat(x, n);
    AllPassConcat(x + n, b);
    AllPassConcat(x + n + b, l);
    Regroup(x, n, b, l);
    assert Checks(d) == x + n + b + l;
  }

  lemma Regroup(x: seq<Check>, n: seq<Check>, b: seq<Check>, l: seq<Check>)
    ensures x + n + b + l == [] + x + (n + b + l) == x + n + (b + l) == (x + n + b) + l + []
  {
  }

  ghost predicate HasBucket(plan: QueuePlan, delay: nat) {
    exists i :: 0 <= i < |plan.retryBuckets| && plan.retryBuckets[i].delayMillis == delay
  }

  /** Some attempt of the configured retry policy may use this delay. */
  ghost predicate EligibleForSome(plan: QueuePlan, delay: nat) {
    exists k: nat :: plan.DelaysForAttempt(k).Some? && delay in plan.DelaysForAttempt(k).value
  }

  lemma EligibleInPlan(plan: QueuePlan, delay: nat)
    ensures EligibleForSome(plan, delay) <==> Eligible(plan.retryBucketDelaysByAttempt, delay)
  {
    var routes := plan.retryBucketDelaysByAttempt;
    if EligibleForSome(plan, delay) {
      var k: nat :| plan.DelaysForAttempt(k).Some? && delay in plan.DelaysForAttempt(k).value;
      assert delay in routes[k - 1];
    }
    if Eligible(routes, delay) {
      var k :| 0 <= k < |routes| && delay in routes[k];
      assert plan.DelaysForAttempt(k + 1) == Some(routes[k]);
    }
  }

  lemma BucketDelaysListed(d: QueueDefinition, plan: QueuePlan, delay: nat)
    requires IsPlanOf(d, plan)
    ensures HasBucket(plan, delay) <==> delay in BucketDelays(d)
  {
    var delays := BucketDelays(d);
    if delay in delays {
      var i :| 0 <= i < |delays| && delays[i] == delay;
      assert plan.retryBuckets[i].delayMillis == delay;
    }
    if HasBucket(plan, delay) {
      var i :| 0 <= i < |plan.retryBuckets| && plan.retryBuckets[i].delayMillis == delay;
      assert delays[i] == delay;
    }
  }

  /**
    In a compiled plan a delay has a bucket exactly when some attempt may use it, and no two
    buckets share a delay; exactly the attempts from one to the configured number have delays.
    */
  lemma BucketsMatchAttempts(d: QueueDefinition, plan: QueuePlan)
    requires IsPlanOf(d, plan)
    ensures forall delay: nat :: HasBucket(plan, delay) <==> EligibleForSome(plan, delay)
    ensures forall i, j :: 0 <= i < j < |plan.retryBuckets| ==>
      plan.retryBuckets[i].delayMillis < plan.retryBuckets[j].delayMillis
    ensures forall k: nat :: plan.DelaysForAttempt(k).Some? <==> 1 <= k <= d.retryAttempts
  {
    forall delay: nat ensures HasBucket(plan, delay) <==> EligibleForSome(plan, delay) {
      EligibleInPlan(plan, delay);
      BucketDelaysListed(d, plan, delay);
    }
    var delays := BucketDelays(d);
    forall i, j | 0 <= i < j < |plan.retryBuckets|
      ensures plan.retryBuckets[i].delayMillis < plan.retryBuckets[j].delayMillis
    {
      assert delays[i] < delays[j];
    }
  }

  /** The per-queue limit can only be exceeded with jitter, and by no more than eleven buckets. */
  lemma BucketLimitNeedsJitter(d: QueueDefinition)
    requires ValidateDefinition(d).None?
    ensures |BucketDelays(d)| <= 43
    ensures d.retryJitterRatio == Finite(0.0) ==> |BucketDelays(d)| <= 15
  {
    ValidatedPolicy(d);
    BucketsAreDelays(PolicyOf(d));
    DelayBound(PolicyOf(d), d.retryAttempts);
  }

  // ---------------------------------------------------------------- acceptance of a topology

  datatype ExchangeClaim = ExchangeClaim(name: string, kind: ExchangeKind, ownership: Ownership)

  function LogicalName(d: QueueDefinition): seq<string> { [d.name] }

  function Named(d: QueueDefinition): NamedQueue { NamedQueue(d.name, BucketDelays(d)) }

  function Physical(d: QueueDefinition): seq<string> { PhysicalNames(Named(d)) }

  function Claims(d: QueueDefinition): seq<ExchangeClaim> {
    [ExchangeClaim(d.exchangeName, d.exchangeKind, d.ownership),
     ExchangeClaim(DeadLetterExchangeName(d), Direct, d.ownership)]
    + if BucketDelays(d) == [] then [] else [ExchangeClaim(RetryExchangeName(d), Direct, d.ownership)]
  }

  ghost predicate Consistent(claims: seq<ExchangeClaim>) {
    forall a, b :: a in claims && b in claims && a.name == b.name ==> a == b
  }

  ghost predicate EachCompiles(defs: seq<QueueDefinition>) {
    forall d :: d in defs ==> ValidateDefinition(d).None? && QueueCompiles(d)
  }

  /** The physical queues that a plan declares, in declaration order. */
  function PlanNames(plan: QueuePlan): seq<string> {
    [plan.definition.name]
    + seq(|plan.retryBuckets|, i requires 0 <= i < |plan.retryBuckets| => plan.retryBuckets[i].queueName)
    + [plan.deadLetterQueueName]
  }

  /** The exchanges that a plan uses; the retry exchange only when there are retry buckets. */
  function PlanClaims(plan: QueuePlan): seq<ExchangeClaim> {
    var ownership := plan.definition.ownership;
    [ExchangeClaim(plan.definition.exchangeName, plan.definition.exchangeKind, ownership),
     ExchangeClaim(plan.deadLetterExchangeName, Direct, ownership)]
    + if plan.retryBuckets == [] then [] else [ExchangeClaim(plan.retryExchangeName, Direct, ownership)]
  }

  function PlanDelays(plan: QueuePlan): seq<nat> {
    seq(|plan.retryBuckets|, i requires 0 <= i < |plan.retryBuckets| => plan.retryBuckets[i].delayMillis)
  }

  lemma PlanUsesDerivedNames(d: QueueDefinition, plan: QueuePlan)
    requires IsPlanOf(d, plan)
    ensures PlanNames(plan) == Physical(d) && PlanClaims(plan) == Claims(d) && PlanDelays(plan) == BucketDelays(d)
  {
  }

  /** What makes a topology acceptable, without reference to the order of its queues. */
  ghost predicate Acceptable(defs: seq<QueueDefinition>) {
    && Distinct(FlatMap(LogicalName, defs))
    && EachCompiles(defs)
    && |FlatMap(BucketDelays, defs)| <= MAX_RETRY_BUCKETS_PER_TOPOLOGY
    && Consistent(FlatMap(Claims, defs))
    && Distinct(FlatMap(Physical, defs))
  }

  lemma ImagePermutes<T>(f: QueueDefinition -> seq<T>, a: seq<QueueDefinition>, b: seq<QueueDefinition>)
    requires multiset(a) == multiset(b)
    ensures Distinct(FlatMap(f, a)) <==> Distinct(FlatMap(f, b))
    ensures |FlatMap(f, a)| == |FlatMap(f, b)| && forall x :: x in FlatMap(f, a) <==> x in FlatMap(f, b)
  {
    FlatMapPermutes(f, a, b);
    PermutationKeepsDistinct(FlatMap(f, a), FlatMap(f, b));
  }

  lemma ConsistencyPermutes(a: seq<QueueDefinition>, b: seq<QueueDefinition>)
    requires multiset(a) == multiset(b)
    ensures Consistent(FlatMap(Claims, a)) <==> Consistent(FlatMap(Claims, b))
  {
    ImagePermutes(Claims, a, b);
  }

  lemma EachCompilesPermutes(a: seq<QueueDefinition>, b: seq<QueueDefinition>)
    requires forall d :: d in a <==> d in b
    ensures EachCompiles(a) ==> EachCompiles(b)
  {
  }

  /** Permuting the queues does not change whether they are accepted. */
  lemma AcceptanceIgnoresOrder(a: seq<QueueDefinition>, b: seq<QueueDefinition>)
    requires multiset(a) == multiset(b)
    ensures Acceptable(a) <==> Acceptable(b)
  {
    PermutationKeepsDistinct(a, b);
    EachCompilesPermutes(a, b);
    EachCompilesPermutes(b, a);
    ImagePermutes(LogicalName, a, b);
    ImagePermutes(BucketDelays, a, b);
    ImagePermutes(Physical, a, b);
    ConsistencyPermutes(a, b);
  }

  // ---------------------------------------------------------------- what an error means

  ghost predicate LocalFault(d: QueueDefinition, e: PlanError) {
    ValidateDefinition(d) == Some(e) || (ValidateDefinition(d).None? && FailsFirst(d.name, Checks(d), e))
  }

  ghost predicate Conflict(claims: seq<ExchangeClaim>, name: string) {
    exists a, b :: a in claims && b in claims && a.name == b.name == name && a != b
  }

  ghost predicate GlobalFault(defs: seq<QueueDefinition>, e: PlanError) {
    match e
    case DuplicateQueueName(name) => multiset(FlatMap(LogicalName, defs))[name] > 1
    case TopologyRetryBucketLimitExceeded(count, maximum) =>
      MAX_RETRY_BUCKETS_PER_TOPOLOGY == maximum < count <= |FlatMap(BucketDelays, defs)|
    case PhysicalQueueNameCollision(name) => multiset(FlatMap(Physical, defs))[name] > 1
    case ExchangeContractConflict(name) => Conflict(FlatMap(Claims, defs), name)
    case _ => false
  }

  ghost predicate SomeLocalFault(defs: seq<QueueDefinition>, e: PlanError) {
    exists d :: d in defs && LocalFault(d, e)
  }

  /** Each error of the compiler names a genuine obstacle to acceptance. */
  ghost predicate Explains(defs: seq<QueueDefinition>, e: PlanError) {
    GlobalFault(defs, e) || SomeLocalFault(defs, e)
  }

  lemma ExplainedIsRejected(defs: seq<QueueDefinition>, e: PlanError)
    requires Explains(defs, e)
    ensures !Acceptable(defs)
  {
    if GlobalFault(defs, e) {
      DistinctByCount(FlatMap(LogicalName, defs));
      DistinctByCount(FlatMap(Physical, defs));
    } else {
      var d :| d in defs && LocalFault(d, e);
      assert !EachCompiles(defs);
    }
  }

  lemma GlobalFaultGrows(a: seq<QueueDefinition>, b: seq<QueueDefinition>, e: PlanError)
    requires GlobalFault(a, e)
    ensures GlobalFault(a + b, e)
  {
    match e
    case DuplicateQueueName(name) => FlatMapConcat(LogicalName, a, b);
    case TopologyRetryBucketLimitExceeded(count, maximum) => FlatMapConcat(BucketDelays, a, b);
    case PhysicalQueueNameCollision(name) => FlatMapConcat(Physical, a, b);
    case ExchangeContractConflict(name) =>
      FlatMapConcat(Claims, a, b);
      ConflictGrows(FlatMap(Claims, a), FlatMap(Claims, b), name);
  }

  lemma ConflictGrows(a: seq<ExchangeClaim>, b: seq<ExchangeClaim>, name: string)
    requires Conflict(a, name)
    ensures Conflict(a + b, name)
  {
  }

  lemma LocalFaultGrows(a: seq<QueueDefinition>, b: seq<QueueDefinition>, e: PlanError)
    requires SomeLocalFault(a, e)
    ensures SomeLocalFault(a + b, e)
  {
  }

  lemma ExplainedByPrefix(defs: seq<QueueDefinition>, n: nat, e: PlanError)
    requires n <= |defs| && Explains(defs[..n], e)
    ensures Explains(defs, e)
  {
    var a, b := defs[..n], defs[n..];
    assert defs == a + b;
    if GlobalFault(a, e) {
      GlobalFaultGrows(a, b, e);
    } else {
      LocalFaultGrows(a, b, e);
    }
  }

  // ---------------------------------------------------------------- the compiler

  /** Claiming a name keeps all claimed names distinct exactly when nobody has claimed it. */
  lemma NameClaimed(claimed: seq<string>, name: string)
    requires Distinct(claimed)
    ensures name !in Elements(claimed) <==> Distinct(claimed + [name])
    ensures name in Elements(claimed) ==> multiset(claimed + [name])[name] > 1
    ensures Elements(claimed + [name]) == Elements(claimed) + {name}
  {
    ConcatDistinct(claimed, [name]);
    assert name in claimed <==> name in multiset(claimed);
  }

  method RegisterPhysicalQueue(queues: set<string>, name: string)
      returns (queues': set<string>, r: Result<(), PlanError>)
    ensures queues' == queues + {name}
    ensures r == if name in queues then Err(PhysicalQueueNameCollision(name)) else Ok(())
  {
    queues' := queues + {name};
    r := if name in queues then Err(PhysicalQueueNameCollision(name)) else Ok(());
  }

  method RegisterExchange(exchanges: map<string, (ExchangeKind, Ownership)>, c: ExchangeClaim)
    returns (exchanges': map<string, (ExchangeKind, Ownership)>, r: Result<(), PlanError>)
    ensures exchanges' == exchanges[c.name := (c.kind, c.ownership)]
    ensures r == if c.name in exchanges && exchanges[c.name] != (c.kind, c.ownership)
                 then Err(ExchangeContractConflict(c.name)) else Ok(())
  {
    exchanges' := exchanges[c.name := (c.kind, c.ownership)];
    if c.name in exchanges {
      var (kind, ownership) := exchanges[c.name];
      if kind != c.kind || ownership != c.ownership {
        return exchanges', Err(ExchangeContractConflict(c.name));
      }
    }
    r := Ok(());
  }

  /** The exchange table after a consistent list of claims. */
  ghost predicate Tabulates(claims: seq<ExchangeClaim>, exchanges: map<string, (ExchangeKind, Ownership)>) {
    && Consistent(claims)
    && (forall c :: c in claims ==> c.name in exchanges && exchanges[c.name] == (c.kind, c.ownership))
    && (forall x :: x in exchanges ==> ExchangeClaim(x, exchanges[x].0, exchanges[x].1) in claims)
  }

  lemma ClaimTabulated(claims: seq<ExchangeClaim>, exchanges: map<string, (ExchangeKind, Ownership)>, c: ExchangeClaim)
    requires Tabulates(claims, exchanges)
    ensures c.name !in exchanges || exchanges[c.name] == (c.kind, c.ownership) ==>
              Tabulates(claims + [c], exchanges[c.name := (c.kind, c.ownership)])
    ensures c.name in exchanges && exchanges[c.name] != (c.kind, c.ownership) ==> Conflict(claims + [c], c.name)
  {
  }

  method RegisterExchanges(ghost claimed: seq<ExchangeClaim>, exchanges: map<string, (ExchangeKind, Ownership)>,
                           claims: seq<ExchangeClaim>)
    returns (exchanges': map<string, (ExchangeKind, Ownership)>, r: Result<(), PlanError>)
    requires Tabulates(claimed, exchanges)
    ensures r.Ok? ==> Tabulates(claimed + claims, exchanges')
    ensures r.Err? ==> r.error.ExchangeContractConflict? && Conflict(claimed + claims, r.error.name)
  {
    exchanges' := exchanges;
    r := Ok(());
    assert claimed + claims[..0] == claimed;
    for i := 0 to |claims|
      invariant Tabulates(claimed + claims[..i], exchanges')
      invariant r.Ok?
    {
      ClaimTabulated(claimed + claims[..i], exchanges', claims[i]);
      assert claimed + claims[..i + 1] == claimed + claims[..i] + [claims[i]];
      exchanges', r := RegisterExchange(exchanges', claims[i]);
      if r.Err? {
        assert forall c :: c in claimed + claims[..i + 1] ==> c in claimed + claims;
        return;
      }
    }
    assert claims[..|claims|] == claims;
  }

  method RegisterQueues(ghost claimed: seq<string>, queues: set<string>, names: seq<string>)
    returns (queues': set<string>, r: Result<(), PlanError>)
    requires queues == Elements(claimed) && Distinct(claimed)
    ensures r.Ok? ==> queues' == Elements(claimed + names) && Distinct(claimed + names)
    ensures r.Err? ==> r.error.PhysicalQueueNameCollision? && multiset(claimed + names)[r.error.name] > 1
  {
    queues' := queues;
    r := Ok(());
    assert claimed + names[..0] == claimed;
    for i := 0 to |names|
      invariant queues' == Elements(claimed + names[..i]) && Distinct(claimed + names[..i])
      invariant r.Ok?
    {
      ghost var before := claimed + names[..i];
      assert claimed + names[..i + 1] == before + [names[i]];
      NameClaimed(before, names[i]);
      queues', r := RegisterPhysicalQueue(queues', names[i]);
      if r.Err? {
        assert claimed + names == before + [names[i]] + names[i + 1..];
        return;
      }
    }
    assert names[..|names|] == names;
  }

  /** The loop state after the queues `done`. */
  ghost predicate Compiled(done: seq<QueueDefinition>, logical: set<string>, physical: set<string>,
                           exchanges: map<string, (ExchangeKind, Ownership)>, count: nat, plans: seq<QueuePlan>) {
    && Acceptable(done)
    && logical == Elements(FlatMap(LogicalName, done))
    && physical == Elements(FlatMap(Physical, done))
    && Tabulates(FlatMap(Claims, done), exchanges)
    && count == |FlatMap(BucketDelays, done)|
    && PlansOf(done, plans)
  }

  /** One plan per definition, in configuration order. */
  ghost predicate PlansOf(defs: seq<QueueDefinition>, plans: seq<QueuePlan>) {
    |plans| == |defs| && forall i :: 0 <= i < |defs| ==> IsPlanOf(defs[i], plans[i])
  }

  lemma Snoc(done: seq<QueueDefinition>, d: QueueDefinition)
    ensures var more := done + [d];
            && FlatMap(LogicalName, more) == FlatMap(LogicalName, done) + [d.name]
            && FlatMap(Physical, more) == FlatMap(Physical, done) + Physical(d)
            && FlatMap(Claims, more) == FlatMap(Claims, done) + Claims(d)
            && FlatMap(BucketDelays, more) == FlatMap(BucketDelays, done) + BucketDelays(d)
  {
  }

  /** Steps of one iteration that concern the queue alone. */
  method CompileAlone(d: QueueDefinition) returns (r: Result<QueuePlan, PlanError>)
    ensures r.Ok? ==> ValidateDefinition(d).None? && QueueCompiles(d) && IsPlanOf(d, r.value)
    ensures r.Err? ==> LocalFault(d, r.error)
  {
    var fault := ValidateDefinition(d);
    if fault.Some? {
      return Err(fault.value);
    }
    r := CompileQueue(d);
  }

  lemma DuplicateExplained(done: seq<QueueDefinition>, d: QueueDefinition)
    requires d.name in Elements(FlatMap(LogicalName, done))
    ensures Explains(done + [d], DuplicateQueueName(d.name))
  {
  }

  lemma AloneExplained(done: seq<QueueDefinition>, d: QueueDefinition, e: PlanError)
    requires LocalFault(d, e)
    ensures Explains(done + [d], e)
  {
  }

  lemma LimitExplained(done: seq<QueueDefinition>, d: QueueDefinition, count: nat)
    requires count == |FlatMap(BucketDelays, done)| + |BucketDelays(d)| > MAX_RETRY_BUCKETS_PER_TOPOLOGY
    ensures Explains(done + [d], TopologyRetryBucketLimitExceeded(count, MAX_RETRY_BUCKETS_PER_TOPOLOGY))
  {
    Snoc(done, d);
    assert GlobalFault(done + [d], TopologyRetryBucketLimitExceeded(count, MAX_RETRY_BUCKETS_PER_TOPOLOGY));
  }

  lemma ConflictExplained(done: seq<QueueDefinition>, d: QueueDefinition, name: string)
    requires Conflict(FlatMap(Claims, done) + Claims(d), name)
    ensures Explains(done + [d], ExchangeContractConflict(name))
  {
    Snoc(done, d);
    assert GlobalFault(done + [d], ExchangeContractConflict(name));
  }

  lemma CollisionExplained(done: seq<QueueDefinition>, d: QueueDefinition, name: string)
    requires multiset(FlatMap(Physical, done) + Physical(d))[name] > 1
    ensures Explains(done + [d], PhysicalQueueNameCollision(name))
  {
    Snoc(done, d);
    assert GlobalFault(done + [d], PhysicalQueueNameCollision(name));
  }

  lemma GrownNames(done: seq<QueueDefinition>, d: QueueDefinition)
    requires Distinct(FlatMap(LogicalName, done)) && d.name !in Elements(FlatMap(LogicalName, done))
    ensures Distinct(FlatMap(LogicalName, done) + [d.name])
    ensures Elements(FlatMap(LogicalName, done) + [d.name]) == Elements(FlatMap(LogicalName, done)) + {d.name}
  {
  }

  lemma Grown(done: seq<QueueDefinition>, d: QueueDefinition, logical: set<string>, physical: set<string>,
              exchanges: map<string, (ExchangeKind, Ownership)>, count: nat, plans: seq<QueuePlan>)
    requires Acceptable(done) && EachCompiles(done + [d]) && PlansOf(done + [d], plans)
    requires logical == Elements(FlatMap(LogicalName, done)) && d.name !in logical
    requires physical == Elements(FlatMap(Physical, done) + Physical(d))
    requires Distinct(FlatMap(Physical, done) + Physical(d))
    requires Tabulates(FlatMap(Claims, done) + Claims(d), exchanges)
    requires count == |FlatMap(BucketDelays, done)| + |BucketDelays(d)| <= MAX_RETRY_BUCKETS_PER_TOPOLOGY
    ensures Compiled(done + [d], logical + {d.name}, physical, exchanges, count, plans)
  {
    Snoc(done, d);
    GrownNames(done, d);
  }

  /** One iteration of the compiler: either the grown prefix is acceptable or the error says why not. */
  method CompileNext(ghost done: seq<QueueDefinition>, d: QueueDefinition, logical: set<string>, physical: set<string>,
                     exchanges: map<string, (ExchangeKind, Ownership)>, count: nat, plans: seq<QueuePlan>)
    returns (logical': set<string>, physical': set<string>,
             exchanges': map<string, (ExchangeKind, Ownership)>, count': nat, plans': seq<QueuePlan>,
             r: Result<(), PlanError>)
    requires Compiled(done, logical, physical, exchanges, count, plans)
    ensures r.Ok? ==> Compiled(done + [d], logical', physical', exchanges', count', plans')
    ensures r.Err? ==> Explains(done + [d], r.error)
  {
    logical', physical', exchanges', count', plans' := logical, physical, exchanges, count, plans;
    if d.name in logical {
      DuplicateExplained(done, d);
      return logical', physical', exchanges', count', plans', Err(DuplicateQueueName(d.name));
    }
    logical' := logical + {d.name};
    var alone := CompileAlone(d);
    if alone.Err? {
      AloneExplained(done, d, alone.error);
      return logical', physical', exchanges', count', plans', Err(alone.error);
    }
    PlanUsesDerivedNames(d, alone.value);
    count' := count + |alone.value.retryBuckets|;
    if count' > MAX_RETRY_BUCKETS_PER_TOPOLOGY {
      LimitExplained(done, d, count');
      return logical', physical', exchanges', count', plans',
        Err(TopologyRetryBucketLimitExceeded(count', MAX_RETRY_BUCKETS_PER_TOPOLOGY));
    }
    exchanges', r := RegisterExchanges(FlatMap(Claims, done), exchanges, PlanClaims(alone.value));
    if r.Err? {
      ConflictExplained(done, d, r.error.name);
      return;
    }
    physical', r := RegisterQueues(FlatMap(Physical, done), physical, PlanNames(alone.value));
    if r.Err? {
      CollisionExplained(done, d, r.error.name);
      return;
    }
    plans' := plans + [alone.value];
    GrownCompiles(done, d);
    GrownPlans(done, d, plans, alone.value);
    Grown(done, d, logical, physical', exchanges', count', plans');
  }

  lemma GrownCompiles(done: seq<QueueDefinition>, d: QueueDefinition)
    requires EachCompiles(done) && ValidateDefinition(d).None? && QueueCompiles(d)
    ensures EachCompiles(done + [d])
  {
  }

  lemma GrownPlans(done: seq<QueueDefinition>, d: QueueDefinition, plans: seq<QueuePlan>, plan: QueuePlan)
    requires PlansOf(done, plans) && IsPlanOf(d, plan)
    ensures PlansOf(done + [d], plans + [plan])
  {
  }

  /**
    Compilation succeeds exactly on acceptable topologies and then plans every queue in
    configuration order; otherwise the error explains the rejection.
    */
  method Compile(defs: seq<QueueDefinition>) returns (r: Result<seq<QueuePlan>, PlanError>)
    ensures r.Ok? <==> Acceptable(defs)
    ensures r.Ok? ==> PlansOf(defs, r.value)
    ensures r.Err? ==> Explains(defs, r.error)
  {
    var logical: set<string> := {};
    var physical: set<string> := {};
    var exchanges: map<string, (ExchangeKind, Ownership)> := map[];
    var count := 0;
    var plans: seq<QueuePlan> := [];
    for i := 0 to |defs|
      invariant Compiled(defs[..i], logical, physical, exchanges, count, plans)
    {
      assert defs[..i + 1] == defs[..i] + [defs[i]];
      var step;
      logical, physical, exchanges, count, plans, step :=
        CompileNext(defs[..i], defs[i], logical, physical, exchanges, count, plans);
      if step.Err? {
        ExplainedByPrefix(defs, i + 1, step.error);
        ExplainedIsRejected(defs, step.error);
        return Err(step.error);
      }
    }
    assert defs[..|defs|] == defs;
    r := Ok(plans);
  }

  // ---------------------------------------------------------------- consequences for accepted topologies

  lemma {:induction false} PlanImages(defs: seq<QueueDefinition>, plans: seq<QueuePlan>)
    requires PlansOf(defs, plans)
    ensures FlatMap(PlanNames, plans) == FlatMap(Physical, defs)
    ensures FlatMap(PlanClaims, plans) == FlatMap(Claims, defs)
    ensures FlatMap(PlanDelays, plans) == FlatMap(BucketDelays, defs)
  {
    if defs != [] {
      var last := |defs| - 1;
      PlanImages(defs[..last], plans[..last]);
      PlanUsesDerivedNames(defs[last], plans[last]);
    }
  }

  /**
    An accepted plan declares no physical queue twice, uses each exchange with one kind and one
    owner, and holds at most 4096 retry buckets.
    */
  lemma AcceptedPlanIsSound(defs: seq<QueueDefinition>, plans: seq<QueuePlan>)
    requires Acceptable(defs) && PlansOf(defs, plans)
    ensures Distinct(FlatMap(PlanNames, plans))
    ensures Consistent(FlatMap(PlanClaims, plans))
    ensures |FlatMap(PlanDelays, plans)| <= 4_096
  {
    PlanImages(defs, plans);
  }

  lemma {:induction false} PhysicalOfNamed(defs: seq<QueueDefinition>)
    ensures FlatMap(Physical, defs) == AllPhysicalNames(seq(|defs|, i requires 0 <= i < |defs| => Named(defs[i])))
  {
    if defs != [] {
      var last := |defs| - 1;
      PhysicalOfNamed(defs[..last]);
      var named := seq(|defs|, i requires 0 <= i < |defs| => Named(defs[i]));
      assert named[..last] == seq(last, i requires 0 <= i < last => Named(defs[..last][i]));
    }
  }

  ghost predicate SomeNameDerived(defs: seq<QueueDefinition>) {
    exists i, j :: 0 <= i < |defs| && 0 <= j < |defs| && Derives(Named(defs[j]), defs[i].name)
  }

  lemma DerivedByNamed(defs: seq<QueueDefinition>, named: seq<NamedQueue>)
    requires |named| == |defs| && forall i :: 0 <= i < |defs| ==> named[i] == Named(defs[i])
    ensures MainNameIsDerived(named) <==> SomeNameDerived(defs)
  {
  }

  /**
    Among queues with distinct names, the physical-name check rejects exactly when a configured
    main name equals a name derived for another queue.
    */
  lemma PhysicalCollisionCriterion(defs: seq<QueueDefinition>)
    requires Distinct(FlatMap(LogicalName, defs))
    ensures Distinct(FlatMap(Physical, defs)) <==> !SomeNameDerived(defs)
  {
    var named := seq(|defs|, i requires 0 <= i < |defs| => Named(defs[i]));
    PhysicalOfNamed(defs);
    NamesDistinct(defs);
    CollisionCriterion(named);
    DerivedByNamed(defs, named);
  }

  lemma {:induction false} NamesDistinct(defs: seq<QueueDefinition>)
    requires Distinct(FlatMap(LogicalName, defs))
    ensures forall i, j :: 0 <= i < j < |defs| ==> defs[i].name != defs[j].name
  {
    if defs != [] {
      var last := |defs| - 1;
      assert defs == defs[..last] + [defs[last]];
      Snoc(defs[..last], defs[last]);
      ConcatDistinct(FlatMap(LogicalName, defs[..last]), [defs[last].name]);
      NamesDistinct(defs[..last]);
      forall i | 0 <= i < last ensures defs[i].name != defs[last].name {
        InFlatMap(LogicalName, defs[..last], defs[i].name);
        assert defs[i].name in LogicalName(defs[..last][i]);
      }
    }
  }
}
