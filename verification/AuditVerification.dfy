/** Verifying and sealing the audit chain: the imperative verifier, the reading of its verdict
    that does not depend on order, tamper evidence, and the range a seal covers. */
module AuditVerification {
  import opened Common
  import opened TenantScope
  import opened AuditLedger
  import StableSort

  predicate BySequence(a: Event, b: Event) {
    a.body.sequence <= b.body.sequence
  }

  predicate DigestVerifies(port: Port, e: Event) {
    port.DigestOf(e.body) == e.digest
  }

  predicate PositionHolds(port: Port, chain: seq<Event>, i: nat)
    requires i < |chain|
  {
    LinkHolds(chain, i) && DigestVerifies(port, chain[i])
  }

  /** One ordered scope passes. */
  predicate ChainHolds(port: Port, chain: seq<Event>) {
    forall i :: 0 <= i < |chain| ==> PositionHolds(port, chain, i)
  }

  function Ordered(events: seq<Event>, key: string): seq<Event> {
    StableSort.Sort(BySequence, Scoped(events, key))
  }

  /** Every scope, regrouped and sorted, passes. */
  predicate Verdict(port: Port, events: seq<Event>) {
    forall e :: e in events ==> ChainHolds(port, Ordered(events, EventKey(e)))
  }

  method VerifyScope(port: Port, ordered: seq<Event>) returns (ok: bool)
    ensures ok <==> ChainHolds(port, ordered)
  {
    var previousDigest: Option<string> := None;
    for index := 0 to |ordered|
      invariant previousDigest == if index == 0 then None else Some(ordered[index - 1].digest)
      invariant forall i :: 0 <= i < index ==> PositionHolds(port, ordered, i)
    {
      var event := ordered[index];
      if event.body.sequence != index + 1 || event.body.previousDigest != previousDigest {
        assert !PositionHolds(port, ordered, index);
        return false;
      }
      if !DigestVerifies(port, event) {
        assert !PositionHolds(port, ordered, index);
        return false;
      }
      previousDigest := Some(event.digest);
    }
    return true;
  }

  /** The map of arrays, with its keys in arrival order. */
  method GroupByScope(events: seq<Event>) returns (byScope: map<string, seq<Event>>, order: seq<string>)
    ensures forall k :: k in order <==> Scoped(events, k) != []
    ensures forall k :: k in order ==> k in byScope && byScope[k] == Scoped(events, k)
  {
    byScope, order := map[], [];
    for i := 0 to |events|
      invariant forall k :: k in byScope <==> k in order
      invariant forall k :: k in byScope ==> byScope[k] == Scoped(events[..i], k)
      invariant forall k :: k in byScope <==> Scoped(events[..i], k) != []
    {
      var event := events[i];
      var key := EventKey(event);
      var list := if key in byScope then byScope[key] else [];
      if key !in byScope {
        order := order + [key];
      }
      byScope := byScope[key := list + [event]];
      var upToHere := events[..i];
      assert events[..i + 1] == upToHere + [event];
      forall k
        ensures Scoped(events[..i + 1], k) == Scoped(upToHere, k) + if key == k then [event] else []
      {
        ScopedSnoc(upToHere, event, k);
      }
    }
    assert events[..|events|] == events;
  }

  /** Groups the events by scope key, then checks scope after scope. The verdict is the one
      `Consistent` describes without any order. */
  method VerifyAuditChain(port: Port, events: seq<Event>) returns (r: Result<bool, AuditError>)
    ensures r == if Consistent(port, multiset(events)) then Accepted(true) else Rejected(ChainInvalid)
  {
    VerdictIsConsistency(port, events);
    var byScope, order := GroupByScope(events);
    for j := 0 to |order|
      invariant forall i :: 0 <= i < j ==> ChainHolds(port, Ordered(events, order[i]))
    {
      var key := order[j];
      assert key in order;
      var ok := VerifyScope(port, StableSort.Sort(BySequence, byScope[key]));
      if !ok {
        ScopedMembers(events, key);
        assert Scoped(events, key)[0] in events;
        return Rejected(ChainInvalid);
      }
    }
    forall e | e in events
      ensures ChainHolds(port, Ordered(events, EventKey(e)))
    {
      ScopedMembers(events, EventKey(e));
      assert e in Scoped(events, EventKey(e));
      assert EventKey(e) in order;
    }
    return Accepted(true);
  }

  // ---- the verdict without an order ------------------------------------------------------

  ghost predicate Precedes(f: Event, e: Event) {
    && EventKey(f) == EventKey(e)
    && f.body.sequence + 1 == e.body.sequence
    && e.body.previousDigest == Some(f.digest)
  }

  ghost predicate SamePosition(e: Event, f: Event) {
    EventKey(e) == EventKey(f) && e.body.sequence == f.body.sequence
  }

  /** `e` opens its scope, or its predecessor is present. */
  ghost predicate Rooted(events: multiset<Event>, e: Event) {
    if e.body.sequence == 1 then e.body.previousDigest == None
    else e.body.sequence > 1 && exists f :: f in events && Precedes(f, e)
  }

  ghost predicate SoundIn(port: Port, events: multiset<Event>, e: Event) {
    events[e] == 1 && DigestVerifies(port, e) && Rooted(events, e)
  }

  /** What a chain must be, said of a bag of events: every digest recomputes, no position of a
      scope is taken twice, and every event is rooted. */
  ghost predicate Consistent(port: Port, events: multiset<Event>) {
    && (forall e {:trigger SoundIn(port, events, e)} :: e in events ==> SoundIn(port, events, e))
    && (forall e, f :: e in events && f in events && SamePosition(e, f) ==> e == f)
  }

  lemma BySequenceIsTotal()
    ensures StableSort.TotalPreorder(BySequence)
  {
  }

  lemma OrderedFacts(events: seq<Event>, key: string)
    ensures StableSort.SortedBy(BySequence, Ordered(events, key))
    ensures forall e :: e in Ordered(events, key) <==> e in events && EventKey(e) == key
    ensures multiset(Ordered(events, key)) == multiset(Scoped(events, key))
  {
    BySequenceIsTotal();
    StableSort.SortSorts(BySequence, Scoped(events, key));
    StableSort.SortPermutes(BySequence, Scoped(events, key));
    ScopedMembers(events, key);
    forall e
      ensures e in Ordered(events, key) <==> e in Scoped(events, key)
    {
      assert e in Ordered(events, key) <==> e in multiset(Ordered(events, key));
      assert e in Scoped(events, key) <==> e in multiset(Scoped(events, key));
    }
  }

  /** The predecessor of an event sorts before it. */
  lemma PredecessorIsEarlier(chain: seq<Event>, n: nat, f: Event) returns (j: nat)
    requires n < |chain| && StableSort.SortedBy(BySequence, chain)
    requires f in chain && Precedes(f, chain[n])
    ensures j < n && chain[j] == f
  {
    j :| 0 <= j < |chain| && chain[j] == f;
    assert n < j ==> BySequence(chain[n], chain[j]);
  }

  lemma NextPosition(chain: seq<Event>, n: nat)
    requires n < |chain| && StableSort.SortedBy(BySequence, chain)
    requires forall i :: 0 <= i < n ==> LinkHolds(chain, i)
    requires n > 0 ==> chain[n - 1].body.sequence != chain[n].body.sequence
    requires Rooted(multiset(chain), chain[n])
    ensures LinkHolds(chain, n)
  {
    var e := chain[n];
    if n > 0 {
      assert LinkHolds(chain, n - 1) && BySequence(chain[n - 1], e);
      assert e.body.sequence > n;
    }
    if e.body.sequence != 1 {
      var f :| f in multiset(chain) && Precedes(f, e);
      assert f in chain;
      var j := PredecessorIsEarlier(chain, n, f);
      assert LinkHolds(chain, j);
      assert j == n - 1;
    }
  }

  /** `chain` holds the events of one scope, each as often as the bag does, in sequence order. */
  ghost predicate ScopeOf(chain: seq<Event>, events: multiset<Event>, key: string) {
    && (forall f :: f in chain <==> f in events && EventKey(f) == key)
    && (forall f :: f in chain ==> multiset(chain)[f] == events[f])
    && StableSort.SortedBy(BySequence, chain)
  }

  lemma RootedInScope(events: multiset<Event>, chain: seq<Event>, e: Event)
    requires ScopeOf(chain, events, EventKey(e)) && Rooted(events, e)
    ensures Rooted(multiset(chain), e)
  {
    if e.body.sequence != 1 {
      var f :| f in events && Precedes(f, e);
      assert f in chain;
      assert f in multiset(chain);
    }
  }

  ghost predicate RootedAt(chain: seq<Event>, i: nat)
    requires i < |chain|
  {
    Rooted(multiset(chain), chain[i])
  }

  predicate FreshAt(chain: seq<Event>, i: nat)
    requires i < |chain|
  {
    i > 0 ==> chain[i - 1].body.sequence != chain[i].body.sequence
  }

  /** Sorted events of which each is rooted and none repeats a sequence count 1, 2, 3, ... */
  lemma {:induction false} PositionsCount(chain: seq<Event>, n: nat)
    requires StableSort.SortedBy(BySequence, chain) && n <= |chain|
    requires forall i :: 0 <= i < |chain| ==> RootedAt(chain, i) && FreshAt(chain, i)
    ensures forall i :: 0 <= i < n ==> LinkHolds(chain, i)
  {
    if n > 0 {
      PositionsCount(chain, n - 1);
      assert RootedAt(chain, n - 1) && FreshAt(chain, n - 1);
      NextPosition(chain, n - 1);
    }
  }

  lemma ScopeIsFresh(port: Port, events: multiset<Event>, chain: seq<Event>, key: string, i: nat)
    requires Consistent(port, events) && ScopeOf(chain, events, key) && i < |chain|
    ensures RootedAt(chain, i) && FreshAt(chain, i) && DigestVerifies(port, chain[i])
  {
    var e := chain[i];
    assert e in chain && e in events;
    assert SoundIn(port, events, e);
    RootedInScope(events, chain, e);
    if i > 0 {
      var d := chain[i - 1];
      assert d in chain && d in events;
      assert d.body.sequence == e.body.sequence ==> SamePosition(d, e);
      if d == e {
        StableSort.OccursTwice(chain, i - 1, i);
      }
    }
  }

  lemma OrderedIsScope(events: seq<Event>, key: string)
    ensures ScopeOf(Ordered(events, key), multiset(events), key)
  {
    OrderedFacts(events, key);
    ScopedMembers(events, key);
    var chain := Ordered(events, key);
    forall f
      ensures f in chain <==> f in multiset(events) && EventKey(f) == key
    {
      assert f in multiset(events) <==> f in events;
    }
  }

  /** What a passing scope says about the bag it was taken from. */
  lemma ChainGivesConsistency(port: Port, events: multiset<Event>, chain: seq<Event>, e: Event)
    requires ScopeOf(chain, events, EventKey(e)) && ChainHolds(port, chain) && e in events
    ensures SoundIn(port, events, e)
    ensures forall f :: f in events && SamePosition(e, f) ==> e == f
  {
    assert e in chain;
    var i :| 0 <= i < |chain| && chain[i] == e;
    assert PositionHolds(port, chain, i);
    forall j | 0 <= j < |chain|
      ensures chain[j].body.sequence == j + 1
    {
      assert PositionHolds(port, chain, j);
    }
    StableSort.OccursOnce(chain, i);
    if i > 0 {
      assert chain[i - 1] in chain && Precedes(chain[i - 1], e);
    }
    forall f | f in events && SamePosition(e, f)
      ensures e == f
    {
      assert f in chain;
      var j :| 0 <= j < |chain| && chain[j] == f;
    }
  }

  lemma VerdictGivesConsistency(port: Port, events: seq<Event>)
    requires Verdict(port, events)
    ensures Consistent(port, multiset(events))
  {
    forall e | e in multiset(events)
      ensures SoundIn(port, multiset(events), e)
      ensures forall f :: f in multiset(events) && SamePosition(e, f) ==> e == f
    {
      assert e in events;
      OrderedIsScope(events, EventKey(e));
      ChainGivesConsistency(port, multiset(events), Ordered(events, EventKey(e)), e);
    }
  }

  lemma ConsistentChainHolds(port: Port, events: multiset<Event>, chain: seq<Event>, key: string)
    requires Consistent(port, events) && ScopeOf(chain, events, key)
    ensures ChainHolds(port, chain)
  {
    forall i | 0 <= i < |chain|
      ensures RootedAt(chain, i) && FreshAt(chain, i) && DigestVerifies(port, chain[i])
    {
      ScopeIsFresh(port, events, chain, key, i);
    }
    PositionsCount(chain, |chain|);
  }

  /** The verifier's regrouping and sorting decide exactly order-free consistency. */
  lemma VerdictIsConsistency(port: Port, events: seq<Event>)
    ensures Verdict(port, events) <==> Consistent(port, multiset(events))
  {
    if Verdict(port, events) {
      VerdictGivesConsistency(port, events);
    }
    if Consistent(port, multiset(events)) {
      forall e | e in events
        ensures ChainHolds(port, Ordered(events, EventKey(e)))
      {
        OrderedIsScope(events, EventKey(e));
        ConsistentChainHolds(port, multiset(events), Ordered(events, EventKey(e)), EventKey(e));
      }
    }
  }

  /** Feeding the same events in another order, ties included, cannot change the verdict. */
  lemma VerdictIgnoresOrder(port: Port, a: seq<Event>, b: seq<Event>)
    requires multiset(a) == multiset(b)
    ensures Verdict(port, a) <==> Verdict(port, b)
  {
    VerdictIsConsistency(port, a);
    VerdictIsConsistency(port, b);
  }

  // ---- what append builds, verify accepts ------------------------------------------------

  lemma LinkedIsOrdered(events: seq<Event>, key: string)
    requires Linked(Scoped(events, key))
    ensures Ordered(events, key) == Scoped(events, key)
  {
    var chain := Scoped(events, key);
    forall i, j | 0 <= i < j < |chain|
      ensures BySequence(chain[i], chain[j])
    {
      assert LinkHolds(chain, i) && LinkHolds(chain, j);
    }
    StableSort.SortKeepsSorted(BySequence, chain);
  }

  lemma LinkedChainHolds(port: Port, chain: seq<Event>)
    requires Linked(chain)
    ensures ChainHolds(port, chain) <==> forall e :: e in chain ==> DigestVerifies(port, e)
  {
    if ChainHolds(port, chain) {
      forall e | e in chain
        ensures DigestVerifies(port, e)
      {
        var i :| 0 <= i < |chain| && chain[i] == e;
        assert PositionHolds(port, chain, i);
      }
    }
  }

  lemma WellFormedVerdict(port: Port, ledger: seq<Event>)
    requires WellFormed(port, ledger)
    ensures Verdict(port, ledger) <==> forall e :: e in ledger ==> DigestVerifies(port, e)
  {
    forall e | e in ledger
      ensures ChainHolds(port, Ordered(ledger, EventKey(e)))
              <==> forall x :: x in ledger && EventKey(x) == EventKey(e) ==> DigestVerifies(port, x)
    {
      var key := EventKey(e);
      assert Linked(Scoped(ledger, key));
      LinkedIsOrdered(ledger, key);
      LinkedChainHolds(port, Scoped(ledger, key));
      ScopedMembers(ledger, key);
    }
  }

  /** Whatever interleaving of appends over whatever scopes built it, a ledger verifies when
      the port's digests are already in `text` form. */
  lemma ReachableLedgerVerifies(port: Port, inputs: seq<AppendInput>)
    requires port.NormalDigests()
    ensures Verdict(port, Run(port, [], inputs))
  {
    RunKeepsWellFormed(port, [], inputs);
    WellFormedVerdict(port, Run(port, [], inputs));
  }

  /** The premise is exact: append stores the trimmed digest and verify recomputes the raw one,
      so a verified ledger stays verified after an append that adds an event if and only if
      `text` left that event's digest alone. */
  lemma AppendedLedgerVerifiesIff(port: Port, ledger: seq<Event>, input: AppendInput)
    requires WellFormed(port, ledger) && Verdict(port, ledger)
    requires NewEvent(port, ledger, input).Some?
    ensures var body := NewEvent(port, ledger, input).value.body;
            Verdict(port, Step(port, ledger, input))
            <==> port.text(port.DigestOf(body), DIGEST_LENGTH) == Some(port.DigestOf(body))
  {
    StepAddsNewEvent(port, ledger, input);
    StepKeepsWellFormed(port, ledger, input);
    WellFormedVerdict(port, ledger);
    WellFormedVerdict(port, Step(port, ledger, input));
    var e := NewEvent(port, ledger, input).value;
    assert e in Step(port, ledger, input);
  }

  /** A port whose digests end in a blank: append trims it away, verify does not. */
  lemma PaddedDigestFailsVerification()
    ensures exists port: Port, input: AppendInput ::
              Append(port, [], input).Accepted? && !Verdict(port, Step(port, [], input))
  {
    var id: StableId := *;
    var port, input := PaddingPort("d ", "d"), SomeInput(id, "a", map[]);
    PaddedDigestCase(port, input, "d ", "d");
  }

  function PaddingPort(raw: string, trimmed: string): Port {
    Port(_ => "", _ => raw, (s: string, n: nat) => if s == raw then Some(trimmed) else Some(s), _ => "")
  }

  function SomeInput(id: StableId, word: string, summary: Summary): AppendInput {
    AppendInput(Some(id), Some(word), Some(Organization(id)), Some(System), Some(id), word, Some(id), Some(1), Some(word),
                Some(id), word, Some(summary))
  }

  lemma PaddedDigestCase(port: Port, input: AppendInput, raw: string, trimmed: string)
    requires ParseInput(port, input).Accepted? && raw != trimmed
    requires forall b :: port.DigestOf(b) == raw
    requires port.text(raw, DIGEST_LENGTH) == Some(trimmed)
    ensures Append(port, [], input).Accepted? && !Verdict(port, Step(port, [], input))
  {
    assert NewEvent(port, [], input).Some?;
    StepAddsNewEvent(port, [], input);
    AppendedLedgerVerifiesIff(port, [], input);
  }

  // ---- tamper evidence -------------------------------------------------------------------

  /** Two different records, one of each list, with the same digest. */
  ghost predicate Collides(port: Port, a: seq<Event>, b: seq<Event>) {
    exists i, j :: 0 <= i < |a| && 0 <= j < |b| && CollideAt(port, a, b, i, j)
  }

  predicate CollideAt(port: Port, a: seq<Event>, b: seq<Event>, i: nat, j: nat)
    requires i < |a| && j < |b|
  {
    a[i].body != b[j].body && port.DigestOf(a[i].body) == port.DigestOf(b[j].body)
  }

  /** One shared digest pins the position and everything before it, or the two chains hold a
      collision of the digest. */
  lemma {:induction false} SharedDigestSharesHistory(port: Port, a: seq<Event>, b: seq<Event>, i: nat, j: nat)
    requires ChainHolds(port, a) && ChainHolds(port, b)
    requires i < |a| && j < |b| && a[i].digest == b[j].digest
    ensures (i == j && a[..i + 1] == b[..j + 1]) || Collides(port, a, b)
  {
    assert PositionHolds(port, a, i) && PositionHolds(port, b, j);
    if a[i].body != b[j].body {
      assert CollideAt(port, a, b, i, j);
    } else {
      if i > 0 {
        SharedDigestSharesHistory(port, a, b, i - 1, j - 1);
      }
      assert a[..i + 1] == a[..i] + [a[i]] && b[..j + 1] == b[..j] + [b[j]];
    }
  }

  /** Two accepted single-scope chains that end in the same digest are the same events of the same
      scope, or they hold a collision: nothing can be edited, dropped, added or reordered under a
      known final digest without exhibiting two records that digest alike. */
  lemma TamperEvidence(port: Port, a: seq<Event>, b: seq<Event>, keyA: string, keyB: string)
    requires a != [] && b != []
    requires (forall e :: e in a ==> EventKey(e) == keyA) && (forall e :: e in b ==> EventKey(e) == keyB)
    requires Verdict(port, a) && Verdict(port, b)
    requires Ordered(a, keyA)[|Ordered(a, keyA)| - 1].digest == Ordered(b, keyB)[|Ordered(b, keyB)| - 1].digest
    ensures || (Ordered(a, keyA) == Ordered(b, keyB) && multiset(a) == multiset(b) && keyA == keyB)
            || Collides(port, Ordered(a, keyA), Ordered(b, keyB))
  {
    var x, y := Ordered(a, keyA), Ordered(b, keyB);
    ScopedAlone(a, keyA);
    ScopedAlone(b, keyB);
    assert ChainHolds(port, x) by { assert EventKey(a[0]) == keyA; }
    assert ChainHolds(port, y) by { assert EventKey(b[0]) == keyB; }
    LastDigestPins(port, x, y);
    if x == y {
      SameOrderedSameBag(a, b, keyA, keyB);
    }
  }

  lemma LastDigestPins(port: Port, x: seq<Event>, y: seq<Event>)
    requires ChainHolds(port, x) && ChainHolds(port, y) && x != [] && y != []
    requires x[|x| - 1].digest == y[|y| - 1].digest
    ensures x == y || Collides(port, x, y)
  {
    SharedDigestSharesHistory(port, x, y, |x| - 1, |y| - 1);
    assert x == x[..|x|] && y == y[..|y|];
  }

  lemma SameOrderedSameBag(a: seq<Event>, b: seq<Event>, keyA: string, keyB: string)
    requires a != [] && Ordered(a, keyA) == Ordered(b, keyB)
    requires Scoped(a, keyA) == a && Scoped(b, keyB) == b
    ensures multiset(a) == multiset(b) && keyA == keyB
  {
    OrderedFacts(a, keyA);
    OrderedFacts(b, keyB);
    ScopedMembers(a, keyA);
    assert a[0] in Ordered(a, keyA);
    assert a[0] in Ordered(b, keyB);
  }

  // ---- seals -----------------------------------------------------------------------------

  datatype Seal = Seal(
    scope: TenantScope,
    firstSequence: int,
    lastSequence: int,
    eventCount: nat,
    rootDigest: string,
    sealedAt: string)

  function Digests(events: seq<Event>): seq<string> {
    seq(|events|, i requires 0 <= i < |events| => events[i].digest)
  }

  function CreateSeal(port: Port, events: seq<Event>, scope: Option<TenantScope>, sealedAt: Option<string>)
    : Result<Seal, AuditError>
  {
    if scope.None? then Rejected(InvalidScope)
    else if sealedAt.None? then Rejected(InvalidTimestamp)
    else
      var chain := Ordered(events, ScopeKey(scope.value));
      if chain == [] then Rejected(InvalidSequence)
      else if !Verdict(port, chain) then Rejected(ChainInvalid)
      else
        match port.text(port.digest(port.join(Digests(chain))), DIGEST_LENGTH)
        case None => Rejected(ChainInvalid)
        case Some(root) =>
          Accepted(Seal(scope.value, chain[0].body.sequence, chain[|chain| - 1].body.sequence, |chain|, root,
                        sealedAt.value))
  }

  lemma ScopedOfOrdered(events: seq<Event>, key: string)
    ensures Ordered(Ordered(events, key), key) == Ordered(events, key)
    ensures |Ordered(events, key)| == |Scoped(events, key)|
  {
    var chain := Ordered(events, key);
    OrderedFacts(events, key);
    ScopedAlone(chain, key);
    StableSort.SortKeepsSorted(BySequence, chain);
  }

  /** A seal always covers its scope from 1 to its event count. */
  lemma SealCoversFromOne(port: Port, events: seq<Event>, scope: TenantScope, sealedAt: string)
    requires CreateSeal(port, events, Some(scope), Some(sealedAt)).Accepted?
    ensures var seal := CreateSeal(port, events, Some(scope), Some(sealedAt)).value;
            && seal.firstSequence == 1
            && seal.lastSequence == seal.eventCount == |Scoped(events, ScopeKey(scope))| > 0
            && seal.scope == scope && seal.sealedAt == sealedAt
  {
    var key := ScopeKey(scope);
    var chain := Ordered(events, key);
    ScopedOfOrdered(events, key);
    OrderedFacts(events, key);
    assert chain[0] in chain && EventKey(chain[0]) == key;
    assert ChainHolds(port, chain);
    assert PositionHolds(port, chain, 0) && PositionHolds(port, chain, |chain| - 1);
  }

  /** A seal is granted exactly to a non-empty scope whose events are consistent, unless the
      root digest itself has no text. */
  lemma SealGrantedIff(port: Port, events: seq<Event>, scope: TenantScope, sealedAt: string)
    ensures var key := ScopeKey(scope);
            CreateSeal(port, events, Some(scope), Some(sealedAt)).Accepted?
            <==> && Scoped(events, key) != []
                 && Consistent(port, multiset(Scoped(events, key)))
                 && port.text(port.digest(port.join(Digests(Ordered(events, key)))), DIGEST_LENGTH).Some?
  {
    var key := ScopeKey(scope);
    OrderedFacts(events, key);
    ScopedOfOrdered(events, key);
    VerdictIsConsistency(port, Ordered(events, key));
  }

  /** A refused seal names its first fault: no scope, no time, no event of the scope, and only then
      events that are not consistent or a root without a text. */
  lemma SealRefusesFirstFault(port: Port, events: seq<Event>, scope: Option<TenantScope>, sealedAt: Option<string>)
    ensures var r := CreateSeal(port, events, scope, sealedAt);
            && (r == Rejected(InvalidScope) <==> scope.None?)
            && (r == Rejected(InvalidTimestamp) <==> scope.Some? && sealedAt.None?)
            && (r == Rejected(InvalidSequence)
                <==> scope.Some? && sealedAt.Some? && forall e :: e in events ==> e.body.scope != scope.value)
            && (r.Accepted? || r.code == InvalidScope || r.code == InvalidTimestamp || r.code == InvalidSequence
                || r.code == ChainInvalid)
  {
    if scope.Some? && sealedAt.Some? {
      NoneOfScope(events, scope.value);
    }
  }

  lemma NoneOfScope(events: seq<Event>, scope: TenantScope)
    ensures Ordered(events, ScopeKey(scope)) == [] <==> forall e :: e in events ==> e.body.scope != scope
  {
    var chain := Ordered(events, ScopeKey(scope));
    OrderedFacts(events, ScopeKey(scope));
    forall e | e in events
      ensures e in chain <==> e.body.scope == scope
    {
      ScopeKeyIdentifiesScope(e.body.scope, scope);
    }
    if chain != [] {
      assert chain[0] in chain;
    }
  }

  /** Two different lists of digests with the same root. */
  predicate RootsCollide(port: Port, x: seq<string>, y: seq<string>) {
    x != y && port.text(port.digest(port.join(x)), DIGEST_LENGTH) == port.text(port.digest(port.join(y)), DIGEST_LENGTH)
  }

  lemma SameDigestsSameEvents(port: Port, a: seq<Event>, b: seq<Event>)
    requires ChainHolds(port, a) && ChainHolds(port, b)
    requires a != [] && Digests(a) == Digests(b)
    ensures a == b || Collides(port, a, b)
  {
    assert |a| == |Digests(a)| == |b|;
    assert Digests(a)[|a| - 1] == a[|a| - 1].digest && Digests(b)[|a| - 1] == b[|a| - 1].digest;
    LastDigestPins(port, a, b);
  }

  lemma SealedChain(port: Port, events: seq<Event>, scope: TenantScope, sealedAt: string)
    requires CreateSeal(port, events, Some(scope), Some(sealedAt)).Accepted?
    ensures var chain := Ordered(events, ScopeKey(scope));
            && chain != [] && ChainHolds(port, chain)
            && (forall e :: e in chain ==> e.body.scope == scope)
            && port.text(port.digest(port.join(Digests(chain))), DIGEST_LENGTH)
               == Some(CreateSeal(port, events, Some(scope), Some(sealedAt)).value.rootDigest)
  {
    var key := ScopeKey(scope);
    var chain := Ordered(events, key);
    ScopedOfOrdered(events, key);
    OrderedFacts(events, key);
    assert chain[0] in chain && EventKey(chain[0]) == key;
    OneScope(chain, scope);
  }

  lemma OneScope(chain: seq<Event>, scope: TenantScope)
    requires forall e :: e in chain ==> EventKey(e) == ScopeKey(scope)
    ensures forall e :: e in chain ==> e.body.scope == scope
  {
    forall e | e in chain
      ensures e.body.scope == scope
    {
      ScopeKeyIdentifiesScope(e.body.scope, scope);
    }
  }

  /** A root digest pins what was sealed: two seals with the same root were made over the very
      same events of the same scope, whatever else the two lists held, or the sealed events hold a
      collision of the digest or of the root. */
  lemma SealPinsEvents(port: Port, a: seq<Event>, b: seq<Event>, scopeA: TenantScope, scopeB: TenantScope,
                       atA: string, atB: string)
    requires CreateSeal(port, a, Some(scopeA), Some(atA)).Accepted?
    requires CreateSeal(port, b, Some(scopeB), Some(atB)).Accepted?
    requires CreateSeal(port, a, Some(scopeA), Some(atA)).value.rootDigest
             == CreateSeal(port, b, Some(scopeB), Some(atB)).value.rootDigest
    ensures var x, y := Ordered(a, ScopeKey(scopeA)), Ordered(b, ScopeKey(scopeB));
            (scopeA == scopeB && x == y) || Collides(port, x, y) || RootsCollide(port, Digests(x), Digests(y))
  {
    SealedChain(port, a, scopeA, atA);
    SealedChain(port, b, scopeB, atB);
    var x, y := Ordered(a, ScopeKey(scopeA)), Ordered(b, ScopeKey(scopeB));
    if Digests(x) == Digests(y) {
      SameDigestsSameEvents(port, x, y);
      assert x[0] in x && y[0] in y;
    }
  }

  /** After any later appends of any tenants, the first `eventCount` events of the sealed scope
      still make the very same seal, root digest included. */
  lemma SealSurvivesLaterAppends(port: Port, events: seq<Event>, scope: TenantScope, sealedAt: string,
                                 later: seq<AppendInput>)
    requires CreateSeal(port, events, Some(scope), Some(sealedAt)).Accepted?
    ensures var seal := CreateSeal(port, events, Some(scope), Some(sealedAt)).value;
            var now := Scoped(Run(port, events, later), ScopeKey(scope));
            && seal.eventCount <= |now|
            && CreateSeal(port, now[..seal.eventCount], Some(scope), Some(sealedAt)) == Accepted(seal)
  {
    var key := ScopeKey(scope);
    var sealed := Scoped(events, key);
    SealCoversFromOne(port, events, scope, sealedAt);
    RunOnlyAppends(port, events, later);
    var after := Run(port, events, later);
    assert after == events + after[|events|..];
    ScopedAppend(events, after[|events|..], key);
    assert Scoped(after, key)[..|sealed|] == sealed;
    ScopedMembers(events, key);
    ScopedAlone(sealed, key);
  }
}
