/**
 * OutboxService (ScimProvisioning.Infrastructure/Services/OutboxService.cs):
 * turns domain events into staged outbox rows, selects the oldest unprocessed
 * rows, and marks one row processed. Fresh message ids, correlation Guids and
 * the clock are parameters.
 */
module OutboxService {
  import opened Common
  import opened Text
  import Seqs
  import opened DomainEvents
  import opened OutboxMessages
  import opened Store

  /** The two Guid.NewGuid() values one outbox row may draw: its Id and its fallback CorrelationId. */
  datatype MessageIds = MessageIds(id: Guid, correlation: Guid)

  /** The row new OutboxMessage(GetAggregateId(e), e.GetType().Name, Serialize(e), correlationId) holds. */
  function RowFor(e: DomainEvent, ids: MessageIds, correlationId: Option<string>, now: DateTime): OutboxRow
  {
    OutboxRow(ids.id, AggregateId(e), TypeName(e), Serialize(e), now, false, None,
              if correlationId.Some? then correlationId.value else NatToString(ids.correlation))
  }

  /**
   * `staged` is `before` followed by one AddOutbox per event of
   * events[..n], in order, each carrying the row for its event.
   */
  predicate StagedAfter(staged: seq<Write>, before: seq<Write>, events: seq<DomainEvent>, ids: seq<MessageIds>,
                        correlationId: Option<string>, now: DateTime, n: nat)
    requires n <= |events| == |ids|
  {
    && |staged| == |before| + n
    && staged[..|before|] == before
    && forall j :: 0 <= j < n ==> staged[|before| + j] == AddOutbox(RowFor(events[j], ids[j], correlationId, now))
  }

  /** Staging the row of events[n] extends a staging of events[..n] to one of events[..n + 1]. */
  lemma StagedNext(staged: seq<Write>, before: seq<Write>, events: seq<DomainEvent>, ids: seq<MessageIds>,
                   correlationId: Option<string>, now: DateTime, n: nat)
    requires n < |events| == |ids|
    requires StagedAfter(staged, before, events, ids, correlationId, now, n)
    ensures StagedAfter(staged + [AddOutbox(RowFor(events[n], ids[n], correlationId, now))],
                        before, events, ids, correlationId, now, n + 1)
  {
    var staged' := staged + [AddOutbox(RowFor(events[n], ids[n], correlationId, now))];
    assert staged'[..|before|] == staged[..|before|];
    forall j | 0 <= j < n + 1
      ensures staged'[|before| + j] == AddOutbox(RowFor(events[j], ids[j], correlationId, now))
    {
      if j < n {
        assert staged'[|before| + j] == staged[|before| + j];
      }
    }
  }

  /** Publishing one event appends exactly its row. */
  lemma StagedOne(staged: seq<Write>, before: seq<Write>, e: DomainEvent, ids: MessageIds,
                  correlationId: Option<string>, now: DateTime)
    requires StagedAfter(staged, before, [e], [ids], correlationId, now, 1)
    ensures staged == before + [AddOutbox(RowFor(e, ids, correlationId, now))]
  {
    var events: seq<DomainEvent>, idss: seq<MessageIds> := [e], [ids];
    assert events[0] == e && idss[0] == ids;
    assert staged[|before| + 0] == AddOutbox(RowFor(events[0], idss[0], correlationId, now));
    assert staged == staged[..|before|] + [staged[|before|]];
  }

  /**
   * With no correlation id given, rows drawn from distinct correlation
   * Guids carry distinct CorrelationIds: rows of one call are not linked.
   * With one given, every row carries it.
   */
  lemma CorrelationOfRows(e1: DomainEvent, e2: DomainEvent, ids1: MessageIds, ids2: MessageIds,
                          correlationId: Option<string>, now: DateTime)
    ensures correlationId.None? && ids1.correlation != ids2.correlation ==>
      RowFor(e1, ids1, correlationId, now).correlationId != RowFor(e2, ids2, correlationId, now).correlationId
    ensures correlationId.Some? ==>
      RowFor(e1, ids1, correlationId, now).correlationId == RowFor(e2, ids2, correlationId, now).correlationId
  {
    if correlationId.None? && NatToString(ids1.correlation) == NatToString(ids2.correlation) {
      NatToStringInjective(ids1.correlation, ids2.correlation);
    }
  }

  /** The position of the first event whose aggregate id is Guid.Empty, if any. */
  function FirstEmptyAggregate(events: seq<DomainEvent>): (r: Option<nat>)
    ensures r.Some? ==> r.value < |events| && AggregateId(events[r.value]) == EmptyGuid
    ensures r.Some? ==> forall j :: 0 <= j < r.value ==> AggregateId(events[j]) != EmptyGuid
    ensures r.None? <==> forall j :: 0 <= j < |events| ==> AggregateId(events[j]) != EmptyGuid
  {
    if events == [] then None
    else if AggregateId(events[0]) == EmptyGuid then Some(0)
    else
      var r := FirstEmptyAggregate(events[1..]);
      assert forall j :: 1 <= j < |events| ==> events[j] == events[1..][j - 1];
      if r.Some? then Some(r.value + 1) else None
  }

  /** An event with an empty aggregate id after only non-empty ones is the first such event. */
  lemma FirstEmptyAt(events: seq<DomainEvent>, i: nat)
    requires i < |events| && AggregateId(events[i]) == EmptyGuid
    requires forall j :: 0 <= j < i ==> AggregateId(events[j]) != EmptyGuid
    ensures FirstEmptyAggregate(events) == Some(i)
  {
  }

  /**
   * The loop body of PublishDomainEventsAsync up to AddAsync: the message
   * for one event, or the ArgumentException its constructor throws. Type
   * name and content are never blank, so only an empty aggregate id fails.
   */
  method NewMessage(e: DomainEvent, ids: MessageIds, correlationId: Option<string>, now: DateTime)
    returns (r: Result<OutboxMessage>)
    ensures r.Success? <==> AggregateId(e) != EmptyGuid
    ensures r.Failure? ==> r.error == AggregateIdEmpty
    ensures r.Success? ==> fresh(r.value) && r.value.Row() == RowFor(e, ids, correlationId, now)
  {
    var aggregateId, eventType, content := AggregateId(e), TypeName(e), Serialize(e);
    TypeNameNotBlank(e);
    SerializeNotBlank(e);
    var check := CheckArguments(aggregateId, eventType, content);
    if check.Some? {
      return Failure(check.value);
    }
    var message := new OutboxMessage(aggregateId, eventType, content, correlationId, ids.id, ids.correlation, now);
    return Success(message);
  }

  /**
   * PublishDomainEventsAsync: stages one row per event, in iteration order,
   * and saves nothing. The only constructor check an event can fail is an
   * empty aggregate id (type name and content are never blank); the rows
   * staged before that event stay staged and the exception's message is
   * the failure.
   */
  method Publish(uow: UnitOfWork, events: seq<DomainEvent>, correlationId: Option<string>,
                 ids: seq<MessageIds>, now: DateTime)
    returns (r: Result<()>)
    requires |ids| == |events|
    modifies uow`staged
    ensures r.Valid()
    ensures r.Success? <==> FirstEmptyAggregate(events).None?
    ensures r.Success? ==> StagedAfter(uow.staged, old(uow.staged), events, ids, correlationId, now, |events|)
    ensures r.Failure? ==>
      r.error == AggregateIdEmpty &&
      StagedAfter(uow.staged, old(uow.staged), events, ids, correlationId, now, FirstEmptyAggregate(events).value)
  {
    ghost var before := uow.staged;
    var i := 0;
    while i < |events|
      invariant 0 <= i <= |events|
      invariant forall j :: 0 <= j < i ==> AggregateId(events[j]) != EmptyGuid
      invariant StagedAfter(uow.staged, before, events, ids, correlationId, now, i)
    {
      var message := NewMessage(events[i], ids[i], correlationId, now);
      if message.Failure? {
        FirstEmptyAt(events, i);
        return Failure(message.error);
      }
      ghost var prior := uow.staged;
      uow.Stage(AddOutbox(message.value.Row()));
      StagedNext(prior, before, events, ids, correlationId, now, i);
      i := i + 1;
    }
    return Ok();
  }

  /** Where(m => !m.Processed) */
  predicate Unprocessed(m: OutboxRow) { !m.processed }

  /** The key OrderBy(m => m.CreatedAt) sorts on. */
  function CreatedAt(m: OutboxRow): int { m.createdAt }

  /** GetUnprocessedMessagesAsync(batchSize): filter, order by CreatedAt, take. */
  function GetUnprocessed(outbox: seq<OutboxRow>, batchSize: int): (batch: seq<OutboxRow>)
    ensures Seqs.IsWindow(batch, Seqs.Filter(outbox, Unprocessed), 0, batchSize, CreatedAt)
    ensures forall i :: 0 <= i < |batch| ==> !batch[i].processed
    ensures Seqs.SortedBy(batch, CreatedAt)
    ensures batchSize <= 0 ==> batch == []
    ensures |batch| <= |outbox|
  {
    var pending := Seqs.Filter(outbox, Unprocessed);
    var sorted := Seqs.SortBy(pending, CreatedAt);
    Seqs.PageOfSorted(sorted, 0, batchSize, CreatedAt);
    Seqs.SubMultisetKeeps(pending, Seqs.Take(sorted, batchSize), Unprocessed);
    assert Seqs.Skip(sorted, 0) == sorted && multiset(sorted) == multiset(pending);
    Seqs.Take(sorted, batchSize)
  }

  /**
   * The batch holds min(batchSize, number of unprocessed rows) rows, every
   * one of them an unprocessed row of the table, and they are the oldest:
   * no unprocessed row left out was created before a row of the batch. When
   * the batch is not full, every unprocessed row is in it.
   */
  lemma GetUnprocessedIsComplete(outbox: seq<OutboxRow>, batchSize: int)
    ensures var batch := GetUnprocessed(outbox, batchSize);
      var pending := Seqs.Filter(outbox, Unprocessed);
      && |batch| == (if batchSize <= 0 then 0 else if batchSize < |pending| then batchSize else |pending|)
      && multiset(batch) <= multiset(pending)
      && (batchSize >= |pending| ==> multiset(batch) == multiset(pending))
      && (forall b, m :: b in batch && m in multiset(pending) - multiset(batch) ==> b.createdAt <= m.createdAt)
  {
    var pending := Seqs.Filter(outbox, Unprocessed);
    var sorted := Seqs.SortBy(pending, CreatedAt);
    Seqs.PageOfSorted(sorted, 0, batchSize, CreatedAt);
    Seqs.TakeHoldsSmallest(sorted, batchSize, CreatedAt);
    assert GetUnprocessed(outbox, batchSize) == Seqs.Take(sorted, batchSize);
  }

  /** Every row of a batch is a row of the table. */
  lemma GetUnprocessedDrawsFromTable(outbox: seq<OutboxRow>, batchSize: int)
    ensures forall m :: m in GetUnprocessed(outbox, batchSize) ==> m in outbox
  {
    var pending := Seqs.Filter(outbox, Unprocessed);
    GetUnprocessedIsComplete(outbox, batchSize);
    Seqs.FilterKeepsMatches(outbox, Unprocessed);
    forall m | m in GetUnprocessed(outbox, batchSize) ensures m in outbox {
      assert m in multiset(GetUnprocessed(outbox, batchSize));
      assert m in multiset(pending);
      assert m in multiset(outbox);
    }
  }

  /**
   * MarkAsProcessedAsync(messageId): an id with no row is a no-op; otherwise
   * that row is marked processed, staged and saved together with whatever
   * else was staged.
   */
  method MarkAsProcessed(uow: UnitOfWork, messageId: Guid, now: DateTime) returns (r: Result<()>)
    requires uow.Valid()
    modifies uow`committed, uow`current, uow`staged
    ensures uow.Valid() && r.Valid()
    ensures OutboxIndex(old(uow.current.outbox), messageId).None? ==>
      r == Ok() && uow.current == old(uow.current) && uow.committed == old(uow.committed) && uow.staged == old(uow.staged)
    ensures OutboxIndex(old(uow.current.outbox), messageId).Some? ==>
      var k := OutboxIndex(old(uow.current.outbox), messageId).value;
      var row := old(uow.current.outbox)[k].(processed := true, processedAt := Some(now));
      var s := Save(old(uow.current), old(uow.staged) + [UpdateOutbox(row)]);
      && (r.Success? <==> s.Success?)
      && (r.Success? ==> uow.current == s.value && uow.staged == [])
      && (r.Success? ==> uow.committed == (if uow.inTransaction then old(uow.committed) else uow.current))
      && (r.Failure? ==> r.error == s.error && uow.current == old(uow.current))
      && (r.Failure? ==> uow.staged == old(uow.staged) + [UpdateOutbox(row)] && uow.committed == old(uow.committed))
  {
    var k := OutboxIndex(uow.current.outbox, messageId);
    if k.None? {
      return Ok();
    }
    var message := new OutboxMessage.FromRow(uow.current.outbox[k.value]);
    message.MarkAsProcessed(now);
    uow.Stage(UpdateOutbox(message.Row()));
    r := uow.SaveChanges();
  }

  /**
   * With nothing else staged, marking an existing row saves, and the only
   * change is that row becoming processed: the other rows and tables are
   * untouched.
   */
  lemma MarkAsProcessedOnlyChangesThatRow(t: Tables, messageId: Guid, now: DateTime)
    requires WellFormed(t) && OutboxIndex(t.outbox, messageId).Some?
    ensures var k := OutboxIndex(t.outbox, messageId).value;
      var row := t.outbox[k].(processed := true, processedAt := Some(now));
      Save(t, [UpdateOutbox(row)]) == Success(t.(outbox := t.outbox[k := row]))
  {
    var k := OutboxIndex(t.outbox, messageId).value;
    var row := t.outbox[k].(processed := true, processedAt := Some(now));
    var t' := t.(outbox := t.outbox[k := row]);
    var ws := [UpdateOutbox(row)];
    assert ws[0] == UpdateOutbox(row) && ws[1..] == [];
    assert Apply(t, ws[0]) == Success(t');
    assert ApplyAll(t', []) == Success(t');
    assert ApplyAll(t, ws) == Success(t');
    ReplaceOutboxWellFormed(t.outbox, k, row);
    assert WellFormed(t');
  }
}
