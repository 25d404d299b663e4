/** Names that the topology compiler derives from a queue's configured name. */
module TopologyNames {
  import opened Sequences
  import opened Text

  function RetryQueueName(name: string, delay: nat): string {
    name + ".retry.v2." + Decimal(delay) + "ms"
  }

  function RetryRoutingKey(name: string, delay: nat): string {
    name + ".retry." + Decimal(delay) + "ms"
  }

  function DeadLetterQueueName(name: string): string {
    name + ".dlq.v2"
  }

  lemma DecimalInjective(m: nat, n: nat)
    requires Decimal(m) + "ms" == Decimal(n) + "ms"
    ensures m == n
  {
    var s := Decimal(m) + "ms";
    assert Decimal(m) == s[..|s| - 2] == Decimal(n);
    DecimalRoundTrip(m);
    DecimalRoundTrip(n);
  }

  /** A retry queue name tells both the queue and the delay it was made from. */
  lemma RetryQueueNameInjective(a: string, m: nat, b: string, n: nat)
    requires RetryQueueName(a, m) == RetryQueueName(b, n)
    ensures a == b && m == n
  {
    assert RetryQueueName(a, m) == (a + ".retry.v2") + ['.'] + (Decimal(m) + "ms");
    assert RetryQueueName(b, n) == (b + ".retry.v2") + ['.'] + (Decimal(n) + "ms");
    LastDot(a + ".retry.v2", Decimal(m) + "ms", b + ".retry.v2", Decimal(n) + "ms");
    DecimalInjective(m, n);
    assert a == (a + ".retry.v2")[..|a|] && b == (b + ".retry.v2")[..|b|];
  }

  /** So does a retry routing key. */
  lemma RetryRoutingKeyInjective(a: string, m: nat, b: string, n: nat)
    requires RetryRoutingKey(a, m) == RetryRoutingKey(b, n)
    ensures a == b && m == n
  {
    assert RetryRoutingKey(a, m) == (a + ".retry") + ['.'] + (Decimal(m) + "ms");
    assert RetryRoutingKey(b, n) == (b + ".retry") + ['.'] + (Decimal(n) + "ms");
    LastDot(a + ".retry", Decimal(m) + "ms", b + ".retry", Decimal(n) + "ms");
    DecimalInjective(m, n);
    assert a == (a + ".retry")[..|a|] && b == (b + ".retry")[..|b|];
  }

  lemma DeadLetterNameInjective(a: string, b: string)
    requires DeadLetterQueueName(a) == DeadLetterQueueName(b)
    ensures a == b
  {
    var s := DeadLetterQueueName(a);
    assert a == s[..|s| - 7] && b == s[..|s| - 7];
  }

  /** Retry queues and dead-letter queues never share a name. */
  lemma RetryIsNotDeadLetter(a: string, m: nat, b: string)
    ensures RetryQueueName(a, m) != DeadLetterQueueName(b)
  {
    var s, t := RetryQueueName(a, m), DeadLetterQueueName(b);
    assert s[|s| - 1] == 's' && t[|t| - 1] == '2';
  }

  // ---------------------------------------------------------------- collisions across queues

  /** A queue as far as physical names are concerned. */
  datatype NamedQueue = NamedQueue(name: string, delays: seq<nat>)

  function RetryNames(name: string, delays: seq<nat>): seq<string> {
    seq(|delays|, i requires 0 <= i < |delays| => RetryQueueName(name, delays[i]))
  }

  /** Main queue, retry buckets, dead-letter queue: the order in which names are claimed. */
  function PhysicalNames(q: NamedQueue): seq<string> {
    [q.name] + RetryNames(q.name, q.delays) + [DeadLetterQueueName(q.name)]
  }

  function AllPhysicalNames(qs: seq<NamedQueue>): seq<string> {
    FlatMap(PhysicalNames, qs)
  }

  ghost predicate Derives(q: NamedQueue, name: string) {
    || name == DeadLetterQueueName(q.name)
    || exists i :: 0 <= i < |q.delays| && name == RetryQueueName(q.name, q.delays[i])
  }

  ghost predicate MainNameIsDerived(qs: seq<NamedQueue>) {
    exists i, j :: 0 <= i < |qs| && 0 <= j < |qs| && Derives(qs[j], qs[i].name)
  }

  lemma InPhysicalNames(q: NamedQueue, x: string)
    ensures x in PhysicalNames(q) <==> x == q.name || Derives(q, x)
  {
    var names := RetryNames(q.name, q.delays);
    assert x in names <==> exists i :: 0 <= i < |q.delays| && x == RetryQueueName(q.name, q.delays[i]) by {
      if x in names {
        var i :| 0 <= i < |names| && names[i] == x;
        assert x == RetryQueueName(q.name, q.delays[i]);
      }
      if exists i :: 0 <= i < |q.delays| && x == RetryQueueName(q.name, q.delays[i]) {
        var i :| 0 <= i < |q.delays| && x == RetryQueueName(q.name, q.delays[i]);
        assert names[i] == x;
      }
    }
  }

  lemma DerivedIsLonger(q: NamedQueue, x: string)
    requires Derives(q, x)
    ensures |x| > |q.name|
  {
  }

  /** Two queues that both derive one name are the same queue. */
  lemma DerivedOnce(p: NamedQueue, q: NamedQueue, x: string)
    requires Derives(p, x) && Derives(q, x)
    ensures p.name == q.name
  {
    if x == DeadLetterQueueName(p.name) {
      if x == DeadLetterQueueName(q.name) {
        DeadLetterNameInjective(p.name, q.name);
      } else {
        var i :| 0 <= i < |q.delays| && x == RetryQueueName(q.name, q.delays[i]);
        RetryIsNotDeadLetter(q.name, q.delays[i], p.name);
      }
    } else {
      var i :| 0 <= i < |p.delays| && x == RetryQueueName(p.name, p.delays[i]);
      if x == DeadLetterQueueName(q.name) {
        RetryIsNotDeadLetter(p.name, p.delays[i], q.name);
      } else {
        var j :| 0 <= j < |q.delays| && x == RetryQueueName(q.name, q.delays[j]);
        RetryQueueNameInjective(p.name, p.delays[i], q.name, q.delays[j]);
      }
    }
  }

  /** One queue with distinct delays never collides with itself. */
  lemma QueueIsFree(q: NamedQueue)
    requires Distinct(q.delays)
    ensures Distinct(PhysicalNames(q))
  {
    var s, n := PhysicalNames(q), |q.delays|;
    forall i, j | 0 <= i < j < |s| ensures s[i] != s[j] {
      if i == 0 {
        if j <= n { assert s[j] == RetryQueueName(q.name, q.delays[j - 1]); }
        assert |s[j]| > |s[i]|;
      } else {
        assert s[i] == RetryQueueName(q.name, q.delays[i - 1]);
        if j <= n {
          assert s[j] == RetryQueueName(q.name, q.delays[j - 1]);
          if s[i] == s[j] { RetryQueueNameInjective(q.name, q.delays[i - 1], q.name, q.delays[j - 1]); }
        } else {
          RetryIsNotDeadLetter(q.name, q.delays[i - 1], q.name);
        }
      }
    }
  }

  ghost predicate DistinctQueues(qs: seq<NamedQueue>) {
    && (forall i, j :: 0 <= i < j < |qs| ==> qs[i].name != qs[j].name)
    && (forall i :: 0 <= i < |qs| ==> Distinct(qs[i].delays))
  }

  /** Without a main name that is also derived, a further queue adds only new names. */
  lemma FurtherQueueIsFree(qs: seq<NamedQueue>, x: string)
    requires DistinctQueues(qs) && !MainNameIsDerived(qs) && qs != []
    requires x in AllPhysicalNames(qs[..|qs| - 1])
    ensures x !in PhysicalNames(qs[|qs| - 1])
  {
    var last := |qs| - 1;
    InFlatMap(PhysicalNames, qs[..last], x);
    var i :| 0 <= i < last && x in PhysicalNames(qs[..last][i]);
    InPhysicalNames(qs[i], x);
    InPhysicalNames(qs[last], x);
    if x in PhysicalNames(qs[last]) && Derives(qs[i], x) && Derives(qs[last], x) {
      DerivedOnce(qs[i], qs[last], x);
    }
  }

  lemma DerivedInPrefix(qs: seq<NamedQueue>, n: nat)
    requires n <= |qs|
    ensures MainNameIsDerived(qs[..n]) ==> MainNameIsDerived(qs)
  {
  }

  lemma {:induction false} UnderivedImpliesFree(qs: seq<NamedQueue>)
    requires DistinctQueues(qs) && !MainNameIsDerived(qs)
    ensures Distinct(AllPhysicalNames(qs))
  {
    if qs != [] {
      var last := |qs| - 1;
      DerivedInPrefix(qs, last);
      UnderivedImpliesFree(qs[..last]);
      QueueIsFree(qs[last]);
      forall x | x in AllPhysicalNames(qs[..last]) ensures x !in PhysicalNames(qs[last]) {
        FurtherQueueIsFree(qs, x);
      }
      ConcatDistinct(AllPhysicalNames(qs[..last]), PhysicalNames(qs[last]));
    }
  }

  lemma {:induction false} SharedNameCollides(qs: seq<NamedQueue>, i: nat, j: nat, x: string)
    requires i < j < |qs| && x in PhysicalNames(qs[i]) && x in PhysicalNames(qs[j])
    ensures !Distinct(AllPhysicalNames(qs))
  {
    var last := |qs| - 1;
    var rest := qs[..last];
    ConcatDistinct(AllPhysicalNames(rest), PhysicalNames(qs[last]));
    if j < last {
      SharedNameCollides(rest, i, j, x);
    } else {
      InFlatMap(PhysicalNames, rest, x);
      assert x in PhysicalNames(rest[i]);
    }
  }

  /**
    For queues with distinct names and distinct delays, physical names collide exactly when
    some configured main name equals a name derived for another queue.
    */
  lemma CollisionCriterion(qs: seq<NamedQueue>)
    requires DistinctQueues(qs)
    ensures Distinct(AllPhysicalNames(qs)) <==> !MainNameIsDerived(qs)
  {
    if MainNameIsDerived(qs) {
      var i, j :| 0 <= i < |qs| && 0 <= j < |qs| && Derives(qs[j], qs[i].name);
      var x := qs[i].name;
      DerivedIsLonger(qs[j], x);
      InPhysicalNames(qs[i], x);
      InPhysicalNames(qs[j], x);
      if i < j { SharedNameCollides(qs, i, j, x); } else { SharedNameCollides(qs, j, i, x); }
    } else {
      UnderivedImpliesFree(qs);
    }
  }
}
