/** The second knowledge-base cleaner (delete_bedrock_kbs_v2.py).

    It does what the first one does, with three differences: every call may
    time out, and a timed-out data-source or knowledge-base deletion is tried
    again; a listing that fails part-way gives nothing at all; and the
    knowledge bases are deleted in batches of a fixed size, with a short
    pause between two knowledge bases of a batch and a longer one between
    batches.

    As in the first cleaner, each operation is specified by a function over
    the scripted provider (`...Run`), the class `CleanerV2` carries it out
    step by step, and the lemmas state what the source promises. */
module KbCleanerV2 {
  import opened Text
  import opened ProviderModel
  import V1 = KbCleaner

  /** `time.sleep` durations, in milliseconds. */
  const PageDelay: nat := 500
  const TimeoutRetryDelay: nat := 5000
  const VectorStoreRetryDelay: nat := 3000
  const SettleDelay: nat := 8000
  const KbRetryDelay: nat := 15000
  const BetweenItemsDelay: nat := 2000
  const BetweenBatchesDelay: nat := 10000
  /** `batch_size` when the caller passes none. */
  const DefaultBatchSize: nat := 5

  /** The operation named in the text of a failed data-source deletion. */
  const DeleteDataSourceOperation: string := "DeleteDataSource"

  /** The second cleaner looks for the vector store in the whole text of the
      exception, not only in its message. */
  predicate VectorStoreText(answer: Reply<()>)
  {
    && answer.Fail? && answer.failure.ClientError?
    && Contains(Lower(ErrorText(answer.failure.code, DeleteDataSourceOperation, answer.failure.message)), VectorStorePhrase)
  }

  /** The failures of a data-source deletion that are tried again when an
      attempt is left. */
  predicate Retryable(answer: Reply<()>)
  {
    answer == Fail(Timeout) || VectorStoreText(answer)
  }

  function Min(a: int, b: int): int
  {
    if a <= b then a else b
  }

  // ---------------------------------------------------------------------------
  // Specification functions

  /** The calls made while reading `k` pages: a request for each, and a
      pause after the second page and after every later one. */
  function PageCalls(k: nat): (r: seq<Call>)
    ensures |r| == if k == 0 then 0 else 2 * k - 1
    ensures forall i :: 0 <= i < |r| ==> r[i] == if i > 0 && i % 2 == 0 then Sleep(PageDelay) else KbPage
  {
    if k == 0 then [] else PageCalls(k - 1) + [KbPage] + (if k > 1 then [Sleep(PageDelay)] else [])
  }

  /** `list_knowledge_bases`: a failure anywhere in the pagination discards
      the pages already read. */
  function ListKnowledgeBasesRun(p: Provider): (r: Run<seq<KbSummary>>)
    ensures Follows(p, r.provider)
  {
    var l := p.NextKbListing();
    Run(Collected(l), p.AfterKbListing().LoggedAll(PageCalls(|l.pages|) + (if l.stop.Some? then [KbPage] else [])))
  }

  /** `delete_data_source_with_timeout` from attempt number `attempt` on. */
  function DeleteDataSourceRun(kb: string, ds: string, attempt: nat, maxRetries: int, p: Provider): (r: Run<bool>)
    ensures Follows(p, r.provider)
    decreases maxRetries - attempt
  {
    if attempt >= maxRetries then Run(false, p)
    else
      var answer := p.NextDelete();
      var q := p.AfterDelete().Logged(DsDelete(kb, ds, answer));
      if answer.Ok? then Run(true, q)
      else if answer.failure.Timeout? then
        if attempt < maxRetries - 1 then
          DeleteDataSourceRun(kb, ds, attempt + 1, maxRetries, q.Logged(Sleep(TimeoutRetryDelay)))
        else Run(false, q)
      else if VectorStoreText(answer) && attempt < maxRetries - 1 then
        var policy := RetainPolicyRun(kb, ds, q);
        DeleteDataSourceRun(kb, ds, attempt + 1, maxRetries, policy.provider.Logged(Sleep(VectorStoreRetryDelay)))
      else Run(false, q)
  }

  /** The data-source loop of `delete_knowledge_base_with_timeout`, from the
      `i`-th listed data source on; a failed deletion does not stop it. */
  function DataSourcePhase(kb: string, dss: seq<DsSummary>, i: nat, p: Provider): (q: Provider)
    requires i <= |dss|
    ensures Follows(p, q)
    decreases |dss| - i
  {
    if i == |dss| then p
    else DataSourcePhase(kb, dss, i + 1, DeleteDataSourceRun(kb, dss[i].id, 0, V1.DefaultMaxRetries, p).provider)
  }

  /** The data-source stage: list the data sources (as the first cleaner
      does), delete each one, and wait if there were any. */
  function Settled(kb: string, p: Provider): (q: Provider)
    ensures Follows(p, q)
  {
    var listed := V1.ListDataSourcesRun(kb, p);
    var phase := DataSourcePhase(kb, listed.value, 0, listed.provider);
    if listed.value != [] then phase.Logged(Sleep(SettleDelay)) else phase
  }

  /** `delete_knowledge_base_with_timeout`: nothing at all in a dry run;
      otherwise the data-source stage, then the knowledge-base delete loop,
      which tries again after a timeout as after any other error. */
  function DeleteKnowledgeBaseRun(dryRun: bool, kb: string, maxRetries: int, p: Provider): (r: Run<bool>)
    ensures Follows(p, r.provider)
  {
    if dryRun then Run(true, p) else KbDeleteAttempts(kb, 0, maxRetries, KbRetryDelay, Settled(kb, p))
  }

  /** The outer loop of `delete_all_knowledge_bases`, from the batch that
      starts at `start` on, with the counters `t` so far. */
  function BatchesRun(dryRun: bool, kbs: seq<KbSummary>, size: nat, start: nat, t: Tally, p: Provider): (r: Run<Tally>)
    requires size > 0
    ensures Follows(p, r.provider)
    decreases |kbs| - start, 2, 0, 0
  {
    if start >= |kbs| then Run(t, p)
    else ItemRun(dryRun, kbs, size, start, Min(start + size, |kbs|), start, t, p)
  }

  /** The inner loop over the batch `start .. end`, from the knowledge base
      with overall position `j` on. */
  function ItemRun(dryRun: bool, kbs: seq<KbSummary>, size: nat, start: nat, end: nat, j: nat, t: Tally, p: Provider): (r: Run<Tally>)
    requires size > 0 && start <= j <= end && start < end == Min(start + size, |kbs|)
    ensures Follows(p, r.provider)
    decreases |kbs| - start, 1, end - j, 1
  {
    if j == end then AfterBatch(dryRun, kbs, size, start, end, t, p)
    else NextItemRun(dryRun, kbs, size, start, end, j, t, p)
  }

  /** One pass of the inner loop, for the knowledge base at position `j`: a
      short pause follows it unless it is the last of its batch. */
  function NextItemRun(dryRun: bool, kbs: seq<KbSummary>, size: nat, start: nat, end: nat, j: nat, t: Tally, p: Provider): (r: Run<Tally>)
    requires size > 0 && start <= j < end == Min(start + size, |kbs|)
    ensures Follows(p, r.provider)
    decreases |kbs| - start, 1, end - j, 0
  {
    var one := DeleteKnowledgeBaseRun(dryRun, kbs[j].id, V1.DefaultMaxRetries, p);
    var paused := if j + 1 < end then one.provider.Logged(Sleep(BetweenItemsDelay)) else one.provider;
    ItemRun(dryRun, kbs, size, start, end, j + 1, V1.Count(t, one.value), paused)
  }

  /** The end of a batch: a long pause when knowledge bases remain, then the
      next batch. */
  function AfterBatch(dryRun: bool, kbs: seq<KbSummary>, size: nat, start: nat, end: nat, t: Tally, p: Provider): (r: Run<Tally>)
    requires size > 0 && start < end == Min(start + size, |kbs|)
    ensures Follows(p, r.provider)
    decreases |kbs| - start, 0, 0, 0
  {
    var paused := if end < |kbs| then p.Logged(Sleep(BetweenBatchesDelay)) else p;
    BatchesRun(dryRun, kbs, size, start + size, t, paused)
  }

  /** The pause that follows the knowledge base at position `j` of a run
      over `n` of them in batches of `size`: none after the last one, the
      long one after the last of a batch, the short one otherwise. */
  function PauseAfter(n: nat, size: nat, j: nat): seq<Call>
    requires size > 0
  {
    if j + 1 >= n then []
    else if (j + 1) % size == 0 then [Sleep(BetweenBatchesDelay)]
    else [Sleep(BetweenItemsDelay)]
  }

  /** The batch loop written as a single loop over the knowledge bases,
      from position `j` on: each deletion is followed by its pause. */
  function FlatRun(dryRun: bool, kbs: seq<KbSummary>, size: nat, j: nat, t: Tally, p: Provider): (r: Run<Tally>)
    requires size > 0 && j <= |kbs|
    ensures Follows(p, r.provider)
    decreases |kbs| - j
  {
    if j == |kbs| then Run(t, p)
    else
      var one := DeleteKnowledgeBaseRun(dryRun, kbs[j].id, V1.DefaultMaxRetries, p);
      FlatRun(dryRun, kbs, size, j + 1, V1.Count(t, one.value), one.provider.LoggedAll(PauseAfter(|kbs|, size, j)))
  }

  /** `delete_all_knowledge_bases(confirm, batch_size)`, where `reply` is
      what the user would type at the prompt. */
  function DeleteAllRun(dryRun: bool, confirm: bool, reply: string, size: nat, p: Provider): (r: Run<V1.Summary>)
    requires size > 0
    ensures Follows(p, r.provider)
  {
    var listed := ListKnowledgeBasesRun(p);
    var kbs := listed.value;
    if kbs == [] then Run(V1.NothingFound, listed.provider)
    else
      var asked := if !dryRun && !confirm then listed.provider.Logged(Prompt) else listed.provider;
      if !dryRun && !confirm && reply != V1.Confirmation then Run(V1.Cancelled, asked)
      else
        var each := BatchesRun(dryRun, kbs, size, 0, Tally(0, 0), asked);
        Run(V1.Completed(each.value.succeeded, each.value.failed), each.provider)
  }

  // ---------------------------------------------------------------------------
  // delete_data_source_with_timeout

  /** A message that mentions the vector store makes the whole exception text
      mention it, so every failure the first cleaner retries is retried here
      as well. */
  lemma MessageMentionsVectorStore(answer: Reply<()>)
    requires V1.VectorStoreFailure(answer)
    ensures VectorStoreText(answer) && Retryable(answer)
  {
    var f := answer.failure;
    var prefix := "An error occurred (" + f.code + ") when calling the " + DeleteDataSourceOperation + " operation: ";
    assert ErrorText(f.code, DeleteDataSourceOperation, f.message) == prefix + f.message;
    VectorStoreErrorInTail(prefix, f.message);
    VectorStoreErrorIsScan(prefix + f.message);
  }

  /** A timeout before the last attempt, unfolded: the failed delete call and
      the pause, with no policy update, then the remaining attempts. */
  lemma DeleteDataSourceTimedOut(kb: string, ds: string, attempt: nat, maxRetries: int, p: Provider)
    requires attempt < maxRetries - 1 && p.NextDelete() == Fail(Timeout)
    ensures var resumed := p.AfterDelete().Logged(DsDelete(kb, ds, Fail(Timeout))).Logged(Sleep(TimeoutRetryDelay));
      var r := DeleteDataSourceRun(kb, ds, attempt, maxRetries, p);
      && r == DeleteDataSourceRun(kb, ds, attempt + 1, maxRetries, resumed)
      && Issued(p, resumed) == [DsDelete(kb, ds, Fail(Timeout)), Sleep(TimeoutRetryDelay)]
      && Issued(p, r.provider) == Issued(p, resumed) + Issued(resumed, r.provider)
  {
    var call := DsDelete(kb, ds, Fail(Timeout));
    var resumed := p.AfterDelete().Logged(call).Logged(Sleep(TimeoutRetryDelay));
    IssuedExactly(p, resumed, [call, Sleep(TimeoutRetryDelay)]);
    IssuedChain(p, resumed, DeleteDataSourceRun(kb, ds, attempt, maxRetries, p).provider);
  }

  /** A vector-store error before the last attempt, unfolded: the failed
      delete call, the policy update and the pause, then the remaining
      attempts. */
  lemma DeleteDataSourceVectorStore(kb: string, ds: string, attempt: nat, maxRetries: int, p: Provider)
    requires attempt < maxRetries - 1 && VectorStoreText(p.NextDelete())
    ensures var q := p.AfterDelete().Logged(DsDelete(kb, ds, p.NextDelete()));
      var policy := RetainPolicyRun(kb, ds, q);
      var resumed := policy.provider.Logged(Sleep(VectorStoreRetryDelay));
      var r := DeleteDataSourceRun(kb, ds, attempt, maxRetries, p);
      && r == DeleteDataSourceRun(kb, ds, attempt + 1, maxRetries, resumed)
      && Issued(p, resumed) == [DsDelete(kb, ds, p.NextDelete())] + Issued(q, policy.provider) + [Sleep(VectorStoreRetryDelay)]
      && Issued(p, r.provider) == Issued(p, resumed) + Issued(resumed, r.provider)
  {
    var call := DsDelete(kb, ds, p.NextDelete());
    var q := p.AfterDelete().Logged(call);
    var policy := RetainPolicyRun(kb, ds, q);
    var resumed := policy.provider.Logged(Sleep(VectorStoreRetryDelay));
    IssuedExactly(p, q, [call]);
    IssuedExactly(policy.provider, resumed, [Sleep(VectorStoreRetryDelay)]);
    IssuedChain(p, q, policy.provider);
    IssuedChain(p, policy.provider, resumed);
    IssuedChain(p, resumed, DeleteDataSourceRun(kb, ds, attempt, maxRetries, p).provider);
  }

  /** The client once a retryable failure has been dealt with. */
  function Recovered(kb: string, ds: string, p: Provider): Provider
  {
    var q := p.AfterDelete().Logged(DsDelete(kb, ds, p.NextDelete()));
    if p.NextDelete() == Fail(Timeout) then q.Logged(Sleep(TimeoutRetryDelay))
    else RetainPolicyRun(kb, ds, q).provider.Logged(Sleep(VectorStoreRetryDelay))
  }

  /** Either kind of retry: one delete call for this data source, and no
      other deletion, before the remaining attempts. */
  lemma DeleteDataSourceRetry(kb: string, ds: string, attempt: nat, maxRetries: int, p: Provider)
    requires attempt < maxRetries - 1 && Retryable(p.NextDelete())
    ensures var resumed := Recovered(kb, ds, p);
      var r := DeleteDataSourceRun(kb, ds, attempt, maxRetries, p);
      var head := Issued(p, resumed);
      && r == DeleteDataSourceRun(kb, ds, attempt + 1, maxRetries, resumed)
      && Issued(p, r.provider) == head + Issued(resumed, r.provider)
      && Filter(head, IsDsDelete) == [DsDelete(kb, ds, p.NextDelete())] && Filter(head, IsKbDelete) == []
      && DsTargets(head) == [ds] && KbTargets(head) == []
  {
    var call := DsDelete(kb, ds, p.NextDelete());
    if p.NextDelete() == Fail(Timeout) {
      DeleteDataSourceTimedOut(kb, ds, attempt, maxRetries, p);
      TimeoutHead(call, TimeoutRetryDelay);
    } else {
      var q := p.AfterDelete().Logged(call);
      DeleteDataSourceVectorStore(kb, ds, attempt, maxRetries, p);
      RetainPolicyCalls(kb, ds, q);
      V1.HeadCounts(call, Issued(q, RetainPolicyRun(kb, ds, q).provider), VectorStoreRetryDelay);
    }
  }

  /** What a timed-out attempt contributes: the failed delete and the pause. */
  lemma TimeoutHead(call: Call, delay: nat)
    requires call.DsDelete?
    ensures var head := [call, Sleep(delay)];
      && Filter(head, IsDsDelete) == [call] && Filter(head, IsKbDelete) == []
      && DsTargets(head) == [call.ds] && KbTargets(head) == []
  {
    TargetsAppend([call], [Sleep(delay)]);
    assert [call] + [Sleep(delay)] == [call, Sleep(delay)];
  }

  /** An attempt that ends the loop: its one call. */
  lemma DeleteDataSourceStopped(kb: string, ds: string, attempt: nat, maxRetries: int, p: Provider)
    requires attempt < maxRetries
    requires !(Retryable(p.NextDelete()) && attempt < maxRetries - 1)
    ensures var r := DeleteDataSourceRun(kb, ds, attempt, maxRetries, p);
      && Issued(p, r.provider) == [DsDelete(kb, ds, p.NextDelete())]
      && (r.value <==> p.NextDelete().Ok?)
  {
    IssuedExactly(p, DeleteDataSourceRun(kb, ds, attempt, maxRetries, p).provider, [DsDelete(kb, ds, p.NextDelete())]);
  }

  /** At most one delete call per remaining attempt, at least one when any
      attempt remains, and none once they are used up. */
  lemma {:induction false} DeleteDataSourceCount(kb: string, ds: string, attempt: nat, maxRetries: int, p: Provider)
    ensures var r := DeleteDataSourceRun(kb, ds, attempt, maxRetries, p);
      var D := Filter(Issued(p, r.provider), IsDsDelete);
      && (attempt >= maxRetries ==> r.provider == p && !r.value)
      && (attempt < maxRetries ==> 1 <= |D| <= maxRetries - attempt)
    decreases maxRetries - attempt
  {
    var r := DeleteDataSourceRun(kb, ds, attempt, maxRetries, p);
    if attempt < maxRetries {
      var call := DsDelete(kb, ds, p.NextDelete());
      if Retryable(p.NextDelete()) && attempt < maxRetries - 1 {
        RetriedDeletes(kb, ds, attempt, maxRetries, p);
        DeleteDataSourceCount(kb, ds, attempt + 1, maxRetries, Recovered(kb, ds, p));
      } else {
        DeleteDataSourceStopped(kb, ds, attempt, maxRetries, p);
        assert Filter([call], IsDsDelete) == [call];
      }
    }
  }

  /** Every delete call but the last timed out or failed because of the
      vector store. */
  ghost predicate RetriedOnRetryable(D: seq<Call>)
  {
    forall j :: 0 <= j < |D| - 1 ==> D[j].DsDelete? && Retryable(D[j].answer)
  }

  /** Success exactly when the last delete call succeeded, and every earlier
      call timed out or failed because of the vector store. */
  lemma {:induction false} DeleteDataSourceOutcome(kb: string, ds: string, attempt: nat, maxRetries: int, p: Provider)
    ensures var r := DeleteDataSourceRun(kb, ds, attempt, maxRetries, p);
      var D := Filter(Issued(p, r.provider), IsDsDelete);
      && (r.value <==> |D| > 0 && D[|D| - 1].answer.Ok?)
      && RetriedOnRetryable(D)
    decreases maxRetries - attempt, 1
  {
    var r := DeleteDataSourceRun(kb, ds, attempt, maxRetries, p);
    if attempt >= maxRetries {
      IssuedExactly(p, r.provider, []);
    } else {
      var call := DsDelete(kb, ds, p.NextDelete());
      if Retryable(p.NextDelete()) && attempt < maxRetries - 1 {
        RetriedOutcome(kb, ds, attempt, maxRetries, p);
      } else {
        DeleteDataSourceStopped(kb, ds, attempt, maxRetries, p);
        assert Filter([call], IsDsDelete) == [call];
      }
    }
  }

  /** The outcome after a retried failure: that delete call in front of
      those of the remaining attempts. */
  lemma {:induction false} RetriedOutcome(kb: string, ds: string, attempt: nat, maxRetries: int, p: Provider)
    requires attempt < maxRetries - 1 && Retryable(p.NextDelete())
    ensures var r := DeleteDataSourceRun(kb, ds, attempt, maxRetries, p);
      var D := Filter(Issued(p, r.provider), IsDsDelete);
      && (r.value <==> |D| > 0 && D[|D| - 1].answer.Ok?)
      && RetriedOnRetryable(D)
    decreases maxRetries - attempt, 0
  {
    var r := DeleteDataSourceRun(kb, ds, attempt, maxRetries, p);
    var resumed := Recovered(kb, ds, p);
    RetriedDeletes(kb, ds, attempt, maxRetries, p);
    DeleteDataSourceOutcome(kb, ds, attempt + 1, maxRetries, resumed);
    DeleteDataSourceCount(kb, ds, attempt + 1, maxRetries, resumed);
    RetriedFirst(Filter(Issued(p, r.provider), IsDsDelete), Filter(Issued(resumed, r.provider), IsDsDelete), DsDelete(kb, ds, p.NextDelete()));
  }

  /** The delete calls of a retried failure: that one, then those of the
      remaining attempts. */
  lemma RetriedDeletes(kb: string, ds: string, attempt: nat, maxRetries: int, p: Provider)
    requires attempt < maxRetries - 1 && Retryable(p.NextDelete())
    ensures var resumed := Recovered(kb, ds, p);
      var r := DeleteDataSourceRun(kb, ds, attempt, maxRetries, p);
      && r == DeleteDataSourceRun(kb, ds, attempt + 1, maxRetries, resumed)
      && Filter(Issued(p, r.provider), IsDsDelete) == [DsDelete(kb, ds, p.NextDelete())] + Filter(Issued(resumed, r.provider), IsDsDelete)
  {
    var resumed := Recovered(kb, ds, p);
    var r := DeleteDataSourceRun(kb, ds, attempt, maxRetries, p);
    DeleteDataSourceRetry(kb, ds, attempt, maxRetries, p);
    FilterAppend(Issued(p, resumed), Issued(resumed, r.provider), IsDsDelete);
  }

  /** Putting one retried failure in front of the delete calls of the
      remaining attempts. */
  lemma RetriedFirst(D: seq<Call>, Dn: seq<Call>, call: Call)
    requires call.DsDelete? && Retryable(call.answer) && D == [call] + Dn
    requires |Dn| > 0 && RetriedOnRetryable(Dn)
    ensures RetriedOnRetryable(D)
  {
    forall j | 0 < j < |D| - 1
      ensures D[j].DsDelete? && Retryable(D[j].answer)
    {
      assert D[j] == Dn[j - 1];
    }
  }


  /** A failure that ends the loop while attempts are left is one the loop
      does not retry: another ClientError, not about the vector store. */
  lemma {:induction false} DeleteDataSourceGaveUp(kb: string, ds: string, attempt: nat, maxRetries: int, p: Provider)
    ensures var r := DeleteDataSourceRun(kb, ds, attempt, maxRetries, p);
      var D := Filter(Issued(p, r.provider), IsDsDelete);
      !r.value && 0 < |D| < maxRetries - attempt ==>
        D[|D| - 1].answer.Fail? && D[|D| - 1].answer.failure.ClientError? && !VectorStoreText(D[|D| - 1].answer)
    decreases maxRetries - attempt, 1
  {
    if attempt < maxRetries {
      var call := DsDelete(kb, ds, p.NextDelete());
      if Retryable(p.NextDelete()) && attempt < maxRetries - 1 {
        RetriedGaveUp(kb, ds, attempt, maxRetries, p);
      } else {
        DeleteDataSourceStopped(kb, ds, attempt, maxRetries, p);
        assert Filter([call], IsDsDelete) == [call];
      }
    }
  }

  lemma {:induction false} RetriedGaveUp(kb: string, ds: string, attempt: nat, maxRetries: int, p: Provider)
    requires attempt < maxRetries - 1 && Retryable(p.NextDelete())
    ensures var r := DeleteDataSourceRun(kb, ds, attempt, maxRetries, p);
      var D := Filter(Issued(p, r.provider), IsDsDelete);
      !r.value && 0 < |D| < maxRetries - attempt ==>
        D[|D| - 1].answer.Fail? && D[|D| - 1].answer.failure.ClientError? && !VectorStoreText(D[|D| - 1].answer)
    decreases maxRetries - attempt, 0
  {
    var resumed := Recovered(kb, ds, p);
    RetriedDeletes(kb, ds, attempt, maxRetries, p);
    DeleteDataSourceGaveUp(kb, ds, attempt + 1, maxRetries, resumed);
    DeleteDataSourceCount(kb, ds, attempt + 1, maxRetries, resumed);
  }


  /** The loop deletes this data source and nothing else. */
  lemma {:induction false} DeleteDataSourceCalls(kb: string, ds: string, attempt: nat, maxRetries: int, p: Provider)
    ensures var r := DeleteDataSourceRun(kb, ds, attempt, maxRetries, p);
      var calls := Issued(p, r.provider);
      && DsTargets(calls) == Repeat(ds, |Filter(calls, IsDsDelete)|)
      && KbTargets(calls) == [] && Filter(calls, IsKbDelete) == []
    decreases maxRetries - attempt
  {
    var r := DeleteDataSourceRun(kb, ds, attempt, maxRetries, p);
    if attempt >= maxRetries {
      IssuedExactly(p, r.provider, []);
    } else {
      var call := DsDelete(kb, ds, p.NextDelete());
      if Retryable(p.NextDelete()) && attempt < maxRetries - 1 {
        var resumed := Recovered(kb, ds, p);
        var head, rest := Issued(p, resumed), Issued(resumed, r.provider);
        DeleteDataSourceRetry(kb, ds, attempt, maxRetries, p);
        DeleteDataSourceCalls(kb, ds, attempt + 1, maxRetries, resumed);
        FilterAppend(head, rest, IsDsDelete);
        FilterAppend(head, rest, IsKbDelete);
        TargetsAppend(head, rest);
      } else {
        DeleteDataSourceStopped(kb, ds, attempt, maxRetries, p);
        assert Filter([call], IsDsDelete) == [call];
        assert DsTargets([call]) == [ds];
      }
    }
  }

  // ---------------------------------------------------------------------------
  // delete_knowledge_base_with_timeout

  /** The data-source loop deletes the listed data sources in order, each one
      one to three times, and no knowledge base. */
  lemma {:induction false} DataSourcePhaseCalls(kb: string, dss: seq<DsSummary>, i: nat, p: Provider)
    requires i <= |dss|
    ensures var calls := Issued(p, DataSourcePhase(kb, dss, i, p));
      && Filter(calls, IsKbDelete) == [] && KbTargets(calls) == []
      && AttemptedInOrder(DsTargets(calls), V1.DsIds(dss[i..]), V1.DefaultMaxRetries)
    decreases |dss| - i
  {
    var r := DataSourcePhase(kb, dss, i, p);
    if i == |dss| {
      IssuedExactly(p, r, []);
      assert dss[i..] == [];
      AttemptedNothing(V1.DefaultMaxRetries);
    } else {
      var one := DeleteDataSourceRun(kb, dss[i].id, 0, V1.DefaultMaxRetries, p);
      var first, rest := Issued(p, one.provider), Issued(one.provider, r);
      IssuedChain(p, one.provider, r);
      DataSourcePhaseCalls(kb, dss, i + 1, one.provider);
      DeleteDataSourceCount(kb, dss[i].id, 0, V1.DefaultMaxRetries, p);
      DeleteDataSourceCalls(kb, dss[i].id, 0, V1.DefaultMaxRetries, p);
      FilterAppend(first, rest, IsKbDelete);
      TargetsAppend(first, rest);
      assert dss[i..][1..] == dss[i + 1..];
      var n := |Filter(first, IsDsDelete)|;
      AttemptedInOrderCons(dss[i].id, n, DsTargets(rest), V1.DsIds(dss[i + 1..]), V1.DefaultMaxRetries);
    }
  }

  /** Everything done before the first knowledge-base delete call deletes
      the listed data sources in order and no knowledge base. */
  lemma DataSourceStage(kb: string, p: Provider)
    ensures var stage := Issued(p, Settled(kb, p));
      && Filter(stage, IsKbDelete) == [] && KbTargets(stage) == []
      && AttemptedInOrder(DsTargets(stage), V1.DsIds(V1.ListDataSourcesRun(kb, p).value), V1.DefaultMaxRetries)
  {
    var listed := V1.ListDataSourcesRun(kb, p);
    var phase := DataSourcePhase(kb, listed.value, 0, listed.provider);
    var settled := Settled(kb, p);
    var settle: seq<Call> := if listed.value != [] then [Sleep(SettleDelay)] else [];
    var l := p.NextDsListing();
    IssuedExactly(p, listed.provider, Repeat(DsPage(kb), Requests(l)));
    IssuedExactly(phase, settled, settle);
    IssuedChain(p, listed.provider, phase);
    IssuedChain(p, phase, settled);
    DataSourcePhaseCalls(kb, listed.value, 0, listed.provider);
    assert listed.value[0..] == listed.value;
    Padded(Issued(p, listed.provider), Issued(listed.provider, phase), settle);
  }

  /** A dry run touches nothing. Otherwise every data-source delete call comes
      before the first knowledge-base delete call, and the listed data sources
      are each tried in listed order. */
  lemma DeleteKnowledgeBaseOrder(dryRun: bool, kb: string, maxRetries: int, p: Provider)
    ensures var r := DeleteKnowledgeBaseRun(dryRun, kb, maxRetries, p);
      var calls := Issued(p, r.provider);
      && (dryRun ==> r.value && r.provider == p)
      && (!dryRun ==>
            && DataSourcesFirst(calls)
            && AttemptedInOrder(DsTargets(calls), V1.DsIds(V1.ListDataSourcesRun(kb, p).value), V1.DefaultMaxRetries))
  {
    if !dryRun {
      var settled := Settled(kb, p);
      var r := DeleteKnowledgeBaseRun(dryRun, kb, maxRetries, p);
      var stage, removal := Issued(p, settled), Issued(settled, r.provider);
      IssuedChain(p, settled, r.provider);
      DataSourceStage(kb, p);
      KbDeleteAttemptsTargets(kb, 0, maxRetries, KbRetryDelay, settled);
      DataSourcesFirstAppend(stage, removal);
      TargetsAppend(stage, removal);
    }
  }

  /** Outside a dry run, the knowledge-base delete calls are those of the
      delete loop that follows the data-source stage. */
  lemma KbDeletesAfterStage(kb: string, maxRetries: int, p: Provider)
    ensures var settled := Settled(kb, p);
      var r := DeleteKnowledgeBaseRun(false, kb, maxRetries, p);
      && r == KbDeleteAttempts(kb, 0, maxRetries, KbRetryDelay, settled)
      && Filter(Issued(p, r.provider), IsKbDelete) == Filter(Issued(settled, r.provider), IsKbDelete)
  {
    var settled := Settled(kb, p);
    var r := DeleteKnowledgeBaseRun(false, kb, maxRetries, p);
    IssuedChain(p, settled, r.provider);
    DataSourceStage(kb, p);
    FilterAppend(Issued(p, settled), Issued(settled, r.provider), IsKbDelete);
  }

  /** Outside a dry run the knowledge base gets at least one and at most
      `maxRetries` delete calls, whatever happened to its data sources; a
      timeout is tried again like any other failure, so the result is false
      only when every attempt failed, and true exactly when the last call
      succeeded. */
  lemma DeleteKnowledgeBaseOutcome(dryRun: bool, kb: string, maxRetries: int, p: Provider)
    requires !dryRun
    ensures var r := DeleteKnowledgeBaseRun(dryRun, kb, maxRetries, p);
      var K := Filter(Issued(p, r.provider), IsKbDelete);
      && (maxRetries >= 1 ==> 1 <= |K| <= maxRetries)
      && (maxRetries < 1 ==> K == [])
      && (!r.value && maxRetries >= 1 ==> |K| == maxRetries)
      && (r.value <==> |K| > 0 && K[|K| - 1].answer.Ok?)
      && (forall j :: 0 <= j < |K| - 1 ==> K[j].answer.Fail?)
  {
    var settled := Settled(kb, p);
    KbDeletesAfterStage(kb, maxRetries, p);
    KbDeleteAttemptsCount(kb, 0, maxRetries, KbRetryDelay, settled);
    KbDeleteAttemptsOutcome(kb, 0, maxRetries, KbRetryDelay, settled);
    if maxRetries < 1 {
      assert Issued(settled, settled) == [];
    }
  }

  /** Outside a dry run, with the default number of attempts, one to three
      delete calls for this knowledge base and for no other. */
  lemma DeleteKnowledgeBaseTargets(kb: string, p: Provider) returns (n: nat)
    ensures 1 <= n <= V1.DefaultMaxRetries
    ensures var r := DeleteKnowledgeBaseRun(false, kb, V1.DefaultMaxRetries, p);
      KbTargets(Issued(p, r.provider)) == Repeat(kb, n)
  {
    var settled := Settled(kb, p);
    var r := DeleteKnowledgeBaseRun(false, kb, V1.DefaultMaxRetries, p);
    IssuedChain(p, settled, r.provider);
    KbDeletesAfterStage(kb, V1.DefaultMaxRetries, p);
    DataSourceStage(kb, p);
    KbDeleteAttemptsTargets(kb, 0, V1.DefaultMaxRetries, KbRetryDelay, settled);
    KbDeleteAttemptsCount(kb, 0, V1.DefaultMaxRetries, KbRetryDelay, settled);
    TargetsAppend(Issued(p, settled), Issued(settled, r.provider));
    n := |Filter(Issued(settled, r.provider), IsKbDelete)|;
  }

  // ---------------------------------------------------------------------------
  // The batch schedule of delete_all_knowledge_bases

  /** The `(batch_start, batch_end)` pairs of the outer loop from `start` on:
      consecutive, non-empty slices of `size` positions that cover
      `start .. n`, the last one possibly shorter. */
  function Batches(n: nat, size: nat, start: nat): (r: seq<(nat, nat)>)
    requires size > 0
    ensures |r| > 0 <==> start < n
    ensures |r| > 0 ==> r[0].0 == start && r[|r| - 1].1 == n
    ensures forall k :: 0 <= k < |r| ==> r[k].0 < r[k].1 <= r[k].0 + size && r[k].1 <= n
    decreases n - start
  {
    if start >= n then [] else [(start, Min(start + size, n))] + Batches(n, size, start + size)
  }

  /** The batches cover `start .. n` with as few slices of `size` as can. */
  lemma {:induction false} BatchCover(n: nat, size: nat, start: nat)
    requires size > 0 && start <= n
    ensures var c := |Batches(n, size, start)|;
      c * size >= n - start && (c > 0 ==> (c - 1) * size < n - start)
    decreases n - start
  {
    if start < n && start + size < n {
      BatchCover(n, size, start + size);
      CoverStep(|Batches(n, size, start + size)|, size, n - start);
    }
  }

  lemma CoverStep(c: nat, size: nat, m: int)
    requires size > 0 && m > size
    requires c * size >= m - size && (c > 0 ==> (c - 1) * size < m - size)
    ensures (c + 1) * size >= m && c * size < m
  {
    assert (c + 1) * size == c * size + size;
    if c > 0 {
      assert c * size == (c - 1) * size + size;
    }
  }

  /** There are `ceil((n - start) / size)` batches. */
  lemma BatchCount(n: nat, size: nat, start: nat)
    requires size > 0 && start <= n
    ensures |Batches(n, size, start)| == (n - start + size - 1) / size
  {
    var c := |Batches(n, size, start)|;
    BatchCover(n, size, start);
    if c > 0 {
      assert (c - 1) * size == c * size - size;
    }
    DivUnique(n - start + size - 1, size, c);
  }

  lemma MulPos(d: int, size: int)
    requires d >= 1 && size > 0
    ensures d * size >= size
  {
  }

  /** Integer division is pinned down by its bounds. */
  lemma DivUnique(x: int, size: int, q: int)
    requires size > 0 && q * size <= x < q * size + size
    ensures x / size == q
  {
    var d := x / size;
    var r := x % size;
    assert x == d * size + r && 0 <= r < size;
    if d - q >= 1 {
      MulPos(d - q, size);
    } else if q - d >= 1 {
      MulPos(q - d, size);
    }
  }

  /** The `k`-th batch is the slice of `size` positions that starts `k`
      sizes after the first, cut off at `n`. */
  lemma {:induction false} BatchSlices(n: nat, size: nat, start: nat)
    requires size > 0
    ensures forall k :: 0 <= k < |Batches(n, size, start)| ==>
      Batches(n, size, start)[k] == (start + k * size, Min(start + k * size + size, n))
    decreases n - start
  {
    var r := Batches(n, size, start);
    if start < n {
      var rest := Batches(n, size, start + size);
      BatchSlices(n, size, start + size);
      forall k | 0 < k < |r|
        ensures r[k] == (start + k * size, Min(start + k * size + size, n))
      {
        assert r[k] == rest[k - 1];
        assert (k - 1) * size + size == k * size;
      }
    }
  }

  /** Each batch but the last is a full slice of `size`, and the next one
      starts where it ends. */
  lemma {:induction false} BatchesConsecutive(n: nat, size: nat, start: nat)
    requires size > 0
    ensures forall j :: 0 <= j < |Batches(n, size, start)| - 1 ==>
      && Batches(n, size, start)[j].1 == Batches(n, size, start)[j].0 + size
      && Batches(n, size, start)[j + 1].0 == Batches(n, size, start)[j].1
    decreases n - start
  {
    var r := Batches(n, size, start);
    if start < n {
      var rest := Batches(n, size, start + size);
      BatchesConsecutive(n, size, start + size);
      assert r == [(start, Min(start + size, n))] + rest;
      forall j | 0 <= j < |r| - 1
        ensures r[j].1 == r[j].0 + size && r[j + 1].0 == r[j].1
      {
        assert r[j + 1] == rest[j];
        if j > 0 {
          assert r[j] == rest[j - 1];
          assert rest[j - 1].1 == rest[j - 1].0 + size && rest[j].0 == rest[j - 1].1;
        } else {
          assert |rest| > 0 && rest[0].0 == start + size;
        }
      }
    }
  }

  /** What the loop prints as it goes: a header per batch (its number and its
      first and last positions, counted from 1) and one per knowledge base
      (its `overall_index`). */
  datatype Marker = BatchHeader(number: nat, first: nat, last: nat) | ItemHeader(index: nat)

  /** The positions `lo + 1 .. hi`, in order. */
  function Positions(lo: nat, hi: nat): (r: seq<nat>)
    ensures |r| == if lo <= hi then hi - lo else 0
    decreases hi - lo
  {
    if lo < hi then [lo + 1] + Positions(lo + 1, hi) else []
  }

  /** The `i`-th position is `lo + i + 1`. */
  lemma {:induction false} PositionsAt(lo: nat, hi: nat, i: nat)
    requires lo + i < hi
    ensures Positions(lo, hi)[i] == lo + i + 1
    decreases i
  {
    if i > 0 {
      PositionsAt(lo + 1, hi, i - 1);
    }
  }

  lemma {:induction false} PositionsAppend(lo: nat, mid: nat, hi: nat)
    requires lo <= mid <= hi
    ensures Positions(lo, mid) + Positions(mid, hi) == Positions(lo, hi)
    decreases mid - lo
  {
    if lo < mid {
      PositionsAppend(lo + 1, mid, hi);
      assert [lo + 1] + Positions(lo + 1, mid) + Positions(mid, hi) == [lo + 1] + (Positions(lo + 1, mid) + Positions(mid, hi));
    } else {
      assert Positions(lo, mid) == [];
      assert [] + Positions(mid, hi) == Positions(mid, hi);
    }
  }

  /** The item headers of positions `j .. end`. */
  function ItemMarkers(j: nat, end: nat): seq<Marker>
    decreases end - j
  {
    if j < end then [ItemHeader(j + 1)] + ItemMarkers(j + 1, end) else []
  }

  /** The header printed before the batch `b`: its number, counted from 1,
      and its first and last positions, counted from 1. */
  function Header(b: (nat, nat), size: nat): Marker
    requires size > 0
  {
    BatchHeader(b.0 / size + 1, b.0 + 1, b.1)
  }

  /** The header of the `k`-th batch of a whole run carries the batch
      number `k + 1` and the positions of the slice it opens, counted from 1. */
  lemma BatchHeaderNumbers(n: nat, size: nat, k: nat)
    requires size > 0 && k < |Batches(n, size, 0)|
    ensures Header(Batches(n, size, 0)[k], size) == BatchHeader(k + 1, k * size + 1, Min(k * size + size, n))
  {
    BatchSlices(n, size, 0);
    DivUnique(k * size, size, k);
  }

  /** The headers printed for the given batches. */
  function Progress(batches: seq<(nat, nat)>, size: nat): seq<Marker>
    requires size > 0
  {
    if batches == [] then []
    else
      var b := batches[0];
      [Header(b, size)] + ItemMarkers(b.0, b.1) + Progress(batches[1..], size)
  }

  /** The `overall_index` values in a run of headers. */
  function Indexes(ms: seq<Marker>): seq<nat>
  {
    if ms == [] then [] else (if ms[0].ItemHeader? then [ms[0].index] else []) + Indexes(ms[1..])
  }

  /** The batch numbers in a run of headers. */
  function Numbers(ms: seq<Marker>): seq<nat>
  {
    if ms == [] then [] else (if ms[0].BatchHeader? then [ms[0].number] else []) + Numbers(ms[1..])
  }

  lemma {:induction false} IndexesAppend(a: seq<Marker>, b: seq<Marker>)
    ensures Indexes(a + b) == Indexes(a) + Indexes(b)
    ensures Numbers(a + b) == Numbers(a) + Numbers(b)
    decreases |a|
  {
    if a == [] {
      assert a + b == b;
    } else {
      assert (a + b)[0] == a[0];
      assert (a + b)[1..] == a[1..] + b;
      IndexesAppend(a[1..], b);
    }
  }

  lemma {:induction false} ItemIndexes(j: nat, end: nat)
    ensures Indexes(ItemMarkers(j, end)) == Positions(j, end)
    ensures Numbers(ItemMarkers(j, end)) == []
    decreases end - j
  {
    if j < end {
      var ms := ItemMarkers(j, end);
      ItemIndexes(j + 1, end);
      assert ms[1..] == ItemMarkers(j + 1, end);
    }
  }

  /** One batch's headers: its own, then one per knowledge base. */
  lemma BatchHeaders(b: (nat, nat), size: nat, rest: seq<(nat, nat)>)
    requires size > 0
    ensures var ms := Progress([b] + rest, size);
      && Indexes(ms) == Positions(b.0, b.1) + Indexes(Progress(rest, size))
      && Numbers(ms) == [b.0 / size + 1] + Numbers(Progress(rest, size))
  {
    var header := [Header(b, size)];
    assert ([b] + rest)[1..] == rest;
    IndexesAppend(header + ItemMarkers(b.0, b.1), Progress(rest, size));
    IndexesAppend(header, ItemMarkers(b.0, b.1));
    ItemIndexes(b.0, b.1);
  }

  /** `overall_index` runs through `start + 1 .. n` in order, once each. */
  lemma {:induction false} ProgressIndexes(n: nat, size: nat, start: nat)
    requires size > 0 && start <= n
    ensures Indexes(Progress(Batches(n, size, start), size)) == Positions(start, n)
    decreases n - start
  {
    if start < n {
      var end := Min(start + size, n);
      var rest := Batches(n, size, start + size);
      BatchHeaders((start, end), size, rest);
      if start + size < n {
        ProgressIndexes(n, size, start + size);
        PositionsAppend(start, end, n);
      } else {
        assert Indexes(Progress(rest, size)) == [];
        assert Positions(start, end) + [] == Positions(start, end);
      }
    }
  }

  /** The batches are numbered `1 .. ceil(n / size)`, in order. */
  lemma ProgressNumbers(n: nat, size: nat)
    requires size > 0
    ensures var r := Batches(n, size, 0);
      && |r| == (n + size - 1) / size
      && Numbers(Progress(r, size)) == Positions(0, |r|)
  {
    var r := Batches(n, size, 0);
    BatchCount(n, size, 0);
    BatchSlices(n, size, 0);
    ProgressNumbersFrom(r, size, 0);
  }

  lemma {:induction false} ProgressNumbersFrom(batches: seq<(nat, nat)>, size: nat, k: nat)
    requires size > 0
    requires forall i :: 0 <= i < |batches| ==> batches[i].0 == (k + i) * size
    ensures Numbers(Progress(batches, size)) == Positions(k, k + |batches|)
    decreases |batches|
  {
    if batches != [] {
      var b := batches[0];
      var rest := batches[1..];
      assert forall i :: 0 <= i < |rest| ==> rest[i].0 == (k + 1 + i) * size by {
        forall i | 0 <= i < |rest| ensures rest[i].0 == (k + 1 + i) * size {
          assert rest[i] == batches[i + 1];
        }
      }
      ProgressNumbersFrom(rest, size, k + 1);
      assert [b] + rest == batches;
      BatchHeaders(b, size, rest);
      DivUnique(b.0, size, k);
    }
  }

  /** The schedule has one pause fewer than there are knowledge bases;
      where each one falls is `BatchesFlat`'s business. */
  lemma {:induction false} PauseCount(n: nat, size: nat, start: nat)
    requires size > 0 && start < n
    ensures |Pauses(Batches(n, size, start), n)| == n - start - 1
    decreases n - start
  {
    var end := Min(start + size, n);
    var rest := Batches(n, size, start + size);
    assert Batches(n, size, start) == [(start, end)] + rest;
    assert ([(start, end)] + rest)[1..] == rest;
    if end < n {
      PauseCount(n, size, start + size);
    } else {
      assert rest == [];
    }
  }

  // ---------------------------------------------------------------------------
  // list_knowledge_bases

  predicate IsPageRequest(c: Call) { c.KbPage? }
  predicate IsPagePause(c: Call) { c == Sleep(PageDelay) }

  /** Reading `k` pages takes `k` requests and `k - 1` pauses. */
  lemma {:induction false} PageCallsCount(k: nat)
    ensures |Filter(PageCalls(k), IsPageRequest)| == k
    ensures |Filter(PageCalls(k), IsPagePause)| == if k > 1 then k - 1 else 0
    decreases k
  {
    if k > 0 {
      var extra: seq<Call> := if k > 1 then [Sleep(PageDelay)] else [];
      PageCallsCount(k - 1);
      FilterAppend(PageCalls(k - 1), [KbPage], IsPageRequest);
      FilterAppend(PageCalls(k - 1) + [KbPage], extra, IsPageRequest);
      FilterAppend(PageCalls(k - 1), [KbPage], IsPagePause);
      FilterAppend(PageCalls(k - 1) + [KbPage], extra, IsPagePause);
    }
  }

  /** A knowledge base is listed exactly when the listing ran to its end and
      one of its pages held it; a failure anywhere gives nothing. Every page
      is requested, with a pause after each page but the first, and the
      listing only reads. */
  lemma ListedIffOnSomePage(p: Provider, kb: KbSummary)
    ensures var r := ListKnowledgeBasesRun(p); var l := p.NextKbListing();
      && (kb in r.value <==> l.stop.None? && exists i :: 0 <= i < |l.pages| && kb in l.pages[i])
      && (l.stop.Some? ==> r.value == [])
  {
    FlattenHolds(p.NextKbListing().pages, kb);
  }

  /** One request per page the paginator fetched, one more for a page it
      could not fetch, a half-second pause after each page from the second
      on, and no change to any resource. */
  lemma ListingRequests(p: Provider)
    ensures var r := ListKnowledgeBasesRun(p); var l := p.NextKbListing();
      var calls := Issued(p, r.provider);
      && |Filter(calls, IsPageRequest)| == Requests(l)
      && |Filter(calls, IsPagePause)| == (if |l.pages| > 1 then |l.pages| - 1 else 0)
      && NoMutation(calls)
  {
    var l := p.NextKbListing();
    var failed: seq<Call> := if l.stop.Some? then [KbPage] else [];
    var calls := PageCalls(|l.pages|) + failed;
    IssuedExactly(p, ListKnowledgeBasesRun(p).provider, calls);
    PageCallsCount(|l.pages|);
    FilterAppend(PageCalls(|l.pages|), failed, IsPageRequest);
    FilterAppend(PageCalls(|l.pages|), failed, IsPagePause);
  }


  /** The listing makes page requests and pauses, nothing else. */
  lemma ListingCalls(p: Provider)
    ensures var calls := Issued(p, ListKnowledgeBasesRun(p).provider);
      forall i :: 0 <= i < |calls| ==> calls[i].KbPage? || calls[i].Sleep?
  {
    var l := p.NextKbListing();
    var pages := PageCalls(|l.pages|);
    var calls := pages + (if l.stop.Some? then [KbPage] else []);
    IssuedExactly(p, ListKnowledgeBasesRun(p).provider, calls);
    forall i | 0 <= i < |calls|
      ensures calls[i].KbPage? || calls[i].Sleep?
    {
      if i < |pages| {
        assert calls[i] == pages[i];
      }
    }
  }

  // ---------------------------------------------------------------------------
  // delete_all_knowledge_bases

  /** The confirmation gate. Nothing listed: nothing to do. Outside a dry
      run and without `confirm`, any reply but the exact word DELETE cancels.
      Otherwise every listed knowledge base is counted once, and a dry run
      counts them all as successes. */
  lemma DeleteAllOutcome(dryRun: bool, confirm: bool, reply: string, size: nat, p: Provider)
    requires size > 0
    ensures var r := DeleteAllRun(dryRun, confirm, reply, size, p);
      var listed := ListKnowledgeBasesRun(p);
      var asked := listed.value != [] && !dryRun && !confirm;
      && (r.value == V1.NothingFound <==> listed.value == [])
      && (r.value == V1.Cancelled <==> asked && reply != V1.Confirmation)
      && (r.value.Completed? <==> listed.value != [] && (dryRun || confirm || reply == V1.Confirmation))
      && (r.value.Completed? ==> r.value.succeeded + r.value.failed == |listed.value|)
      && (r.value.Completed? && dryRun ==> r.value == V1.Completed(|listed.value|, 0))
  {
    var listed := ListKnowledgeBasesRun(p);
    if listed.value != [] && (dryRun || confirm || reply == V1.Confirmation) {
      var asked := if !dryRun && !confirm then listed.provider.Logged(Prompt) else listed.provider;
      BatchesTally(dryRun, listed.value, size, 0, Tally(0, 0), asked);
    }
  }

  /** The calls around the gate: the listing comes first; the prompt, when
      asked, right after it; without anything listed or in a dry run no
      prompt is asked; and nothing is changed unless the deletion goes
      ahead outside a dry run. */
  lemma DeleteAllCalls(dryRun: bool, confirm: bool, reply: string, size: nat, p: Provider)
    requires size > 0
    ensures var r := DeleteAllRun(dryRun, confirm, reply, size, p);
      var listed := ListKnowledgeBasesRun(p);
      var calls, listing := Issued(p, r.provider), Issued(p, listed.provider);
      var asked := listed.value != [] && !dryRun && !confirm;
      && |calls| >= |listing| && calls[..|listing|] == listing
      && (asked ==> calls[|listing|] == Prompt)
      && (listed.value == [] || dryRun ==> Prompt !in calls)
      && (!r.value.Completed? || dryRun ==> NoMutation(calls))
  {
    var listed := ListKnowledgeBasesRun(p);
    var r := DeleteAllRun(dryRun, confirm, reply, size, p);
    var l := p.NextKbListing();
    var listing := PageCalls(|l.pages|) + (if l.stop.Some? then [KbPage] else []);
    IssuedExactly(p, listed.provider, listing);
    if listed.value == [] {
      IssuedExactly(p, r.provider, listing);
    } else if dryRun {
      DryRunCalls(confirm, reply, size, p);
    } else {
      var prompt: seq<Call> := if !confirm then [Prompt] else [];
      var asked := listed.provider.LoggedAll(prompt);
      assert asked == (if !confirm then listed.provider.Logged(Prompt) else listed.provider);
      IssuedExactly(p, asked, listing + prompt);
      if !confirm && reply != V1.Confirmation {
        assert r.provider == asked;
      } else {
        IssuedChain(p, asked, r.provider);
        var rest := Issued(asked, r.provider);
        assert Issued(p, r.provider) == listing + prompt + rest;
        assert (listing + prompt + rest)[..|listing|] == listing;
      }
    }
  }

  /** A dry run lists, then only pauses: no question, no change. */
  lemma DryRunCalls(confirm: bool, reply: string, size: nat, p: Provider)
    requires size > 0 && ListKnowledgeBasesRun(p).value != []
    ensures var r := DeleteAllRun(true, confirm, reply, size, p);
      var listed := ListKnowledgeBasesRun(p);
      var calls, listing := Issued(p, r.provider), Issued(p, listed.provider);
      && |calls| >= |listing| && calls[..|listing|] == listing
      && Prompt !in calls && NoMutation(calls)
  {
    var listed := ListKnowledgeBasesRun(p);
    var r := DeleteAllRun(true, confirm, reply, size, p);
    var l := p.NextKbListing();
    var listing := PageCalls(|l.pages|) + (if l.stop.Some? then [KbPage] else []);
    IssuedExactly(p, listed.provider, listing);
    assert r.provider == BatchesRun(true, listed.value, size, 0, Tally(0, 0), listed.provider).provider;
    IssuedChain(p, listed.provider, r.provider);
    var rest := Issued(listed.provider, r.provider);
    assert (listing + rest)[..|listing|] == listing;
    DryRunPauses(listed.value, size, listed.provider);
    ListingCalls(p);
    ReadsThenPauses(listing, rest);
  }


  lemma ReadsThenPauses(listing: seq<Call>, pauses: seq<Call>)
    requires forall i :: 0 <= i < |listing| ==> listing[i].KbPage? || listing[i].Sleep?
    requires forall i :: 0 <= i < |pauses| ==> IsSchedulePause(pauses[i])
    ensures Prompt !in listing + pauses && NoMutation(listing + pauses)
  {
    var calls := listing + pauses;
    forall i | 0 <= i < |calls|
      ensures calls[i].KbPage? || calls[i].Sleep?
    {
      if i >= |listing| {
        assert calls[i] == pauses[i - |listing|];
      }
    }
  }

  /** A dry run of the batch loop makes nothing but its pauses. */
  lemma DryRunPauses(kbs: seq<KbSummary>, size: nat, p: Provider)
    requires size > 0
    ensures var calls := Issued(p, BatchesRun(true, kbs, size, 0, Tally(0, 0), p).provider);
      forall i :: 0 <= i < |calls| ==> IsSchedulePause(calls[i])
  {
    BatchesPauses(true, kbs, size, 0, Tally(0, 0), p);
  }

  // ---------------------------------------------------------------------------
  // The pauses of the batch loop

  /** The two pauses the batch loop itself makes. */
  predicate IsSchedulePause(c: Call)
  {
    c == Sleep(BetweenItemsDelay) || c == Sleep(BetweenBatchesDelay)
  }

  /** No call in `calls` is one of the batch loop's pauses. */
  ghost predicate Quiet(calls: seq<Call>)
  {
    forall i :: 0 <= i < |calls| ==> !IsSchedulePause(calls[i])
  }

  lemma QuietChain(p: Provider, q: Provider, r: Provider)
    requires Follows(p, q) && Follows(q, r)
    requires Quiet(Issued(p, q)) && Quiet(Issued(q, r))
    ensures Quiet(Issued(p, r))
  {
    IssuedChain(p, q, r);
  }

  /** The pauses the loop makes for the batches `batches` of `n` knowledge
      bases: a short one between two knowledge bases of a batch, and a long
      one after a batch when knowledge bases remain. */
  function Pauses(batches: seq<(nat, nat)>, n: nat): seq<Call>
  {
    if batches == [] then []
    else
      Repeat(Sleep(BetweenItemsDelay), Gaps(batches[0]))
      + (if batches[0].1 < n then [Sleep(BetweenBatchesDelay)] else [])
      + Pauses(batches[1..], n)
  }

  /** The pauses from the end of the batch `start .. end` on. */
  function PausesAfter(n: nat, size: nat, start: nat, end: nat): seq<Call>
    requires size > 0
  {
    (if end < n then [Sleep(BetweenBatchesDelay)] else []) + Pauses(Batches(n, size, start + size), n)
  }

  /** The number of places between two knowledge bases of a batch. */
  function Gaps(batch: (nat, nat)): nat
  {
    if batch.0 < batch.1 then batch.1 - batch.0 - 1 else 0
  }

  /** Dealing with a retryable failure makes none of the batch loop's
      pauses. */
  lemma RecoveredQuiet(kb: string, ds: string, attempt: nat, maxRetries: int, p: Provider)
    requires attempt < maxRetries - 1 && Retryable(p.NextDelete())
    ensures Follows(p, Recovered(kb, ds, p)) && Quiet(Issued(p, Recovered(kb, ds, p)))
  {
    var call := DsDelete(kb, ds, p.NextDelete());
    if p.NextDelete() == Fail(Timeout) {
      IssuedExactly(p, Recovered(kb, ds, p), [call, Sleep(TimeoutRetryDelay)]);
    } else {
      var q := p.AfterDelete().Logged(call);
      var policy := RetainPolicyRun(kb, ds, q);
      var calls, middle := Issued(p, Recovered(kb, ds, p)), Issued(q, policy.provider);
      DeleteDataSourceVectorStore(kb, ds, attempt, maxRetries, p);
      RetainPolicyCalls(kb, ds, q);
      assert calls == [call] + middle + [Sleep(VectorStoreRetryDelay)];
      forall i | 0 <= i < |calls|
        ensures !IsSchedulePause(calls[i])
      {
        if 0 < i <= |middle| {
          assert calls[i] == middle[i - 1];
        }
      }
    }
  }

  /** Deleting one data source makes none of the batch loop's pauses. */
  lemma {:induction false} DeleteDataSourceQuiet(kb: string, ds: string, attempt: nat, maxRetries: int, p: Provider)
    ensures Quiet(Issued(p, DeleteDataSourceRun(kb, ds, attempt, maxRetries, p).provider))
    decreases maxRetries - attempt
  {
    var r := DeleteDataSourceRun(kb, ds, attempt, maxRetries, p);
    if attempt >= maxRetries {
      IssuedExactly(p, r.provider, []);
    } else if Retryable(p.NextDelete()) && attempt < maxRetries - 1 {
      var resumed := Recovered(kb, ds, p);
      DeleteDataSourceRetry(kb, ds, attempt, maxRetries, p);
      RecoveredQuiet(kb, ds, attempt, maxRetries, p);
      DeleteDataSourceQuiet(kb, ds, attempt + 1, maxRetries, resumed);
      QuietChain(p, resumed, r.provider);
    } else {
      IssuedExactly(p, r.provider, [DsDelete(kb, ds, p.NextDelete())]);
    }
  }

  lemma {:induction false} DataSourcePhaseQuiet(kb: string, dss: seq<DsSummary>, i: nat, p: Provider)
    requires i <= |dss|
    ensures Quiet(Issued(p, DataSourcePhase(kb, dss, i, p)))
    decreases |dss| - i
  {
    if i == |dss| {
      IssuedExactly(p, p, []);
    } else {
      var one := DeleteDataSourceRun(kb, dss[i].id, 0, V1.DefaultMaxRetries, p);
      DeleteDataSourceQuiet(kb, dss[i].id, 0, V1.DefaultMaxRetries, p);
      DataSourcePhaseQuiet(kb, dss, i + 1, one.provider);
      QuietChain(p, one.provider, DataSourcePhase(kb, dss, i, p));
    }
  }

  lemma {:induction false} KbDeleteAttemptsQuiet(kb: string, attempt: nat, maxRetries: int, p: Provider)
    ensures Quiet(Issued(p, KbDeleteAttempts(kb, attempt, maxRetries, KbRetryDelay, p).provider))
    decreases maxRetries - attempt
  {
    var r := KbDeleteAttempts(kb, attempt, maxRetries, KbRetryDelay, p);
    if attempt >= maxRetries {
      IssuedExactly(p, r.provider, []);
    } else if p.NextDelete().Fail? && attempt < maxRetries - 1 {
      var q := p.AfterDelete().Logged(KbDelete(kb, p.NextDelete())).Logged(Sleep(KbRetryDelay));
      KbDeleteRetried(kb, attempt, maxRetries, KbRetryDelay, p);
      KbDeleteAttemptsQuiet(kb, attempt + 1, maxRetries, q);
    } else {
      IssuedExactly(p, r.provider, [KbDelete(kb, p.NextDelete())]);
    }
  }

  /** Deleting one knowledge base makes none of the batch loop's pauses, so
      every such pause in a run is the loop's own. */
  lemma DeleteKnowledgeBaseQuiet(dryRun: bool, kb: string, p: Provider)
    ensures var calls := Issued(p, DeleteKnowledgeBaseRun(dryRun, kb, V1.DefaultMaxRetries, p).provider);
      Quiet(calls) && Filter(calls, IsSchedulePause) == []
  {
    var r := DeleteKnowledgeBaseRun(dryRun, kb, V1.DefaultMaxRetries, p);
    if dryRun {
      IssuedExactly(p, p, []);
    } else {
      var listed := V1.ListDataSourcesRun(kb, p);
      var phase := DataSourcePhase(kb, listed.value, 0, listed.provider);
      var settled := Settled(kb, p);
      IssuedExactly(p, listed.provider, Repeat(DsPage(kb), Requests(p.NextDsListing())));
      IssuedExactly(phase, settled, if listed.value != [] then [Sleep(SettleDelay)] else []);
      DataSourcePhaseQuiet(kb, listed.value, 0, listed.provider);
      QuietChain(p, listed.provider, phase);
      QuietChain(p, phase, settled);
      KbDeleteAttemptsQuiet(kb, 0, V1.DefaultMaxRetries, settled);
      QuietChain(p, settled, r.provider);
    }
    FilterNone(Issued(p, r.provider), IsSchedulePause);
  }

  // ---------------------------------------------------------------------------
  // The batch loop

  /** One pass of the inner loop, unfolded: the calls for the knowledge base,
      the short pause unless it is the last of its batch, then the rest. */
  lemma ItemIssued(dryRun: bool, kbs: seq<KbSummary>, size: nat, start: nat, end: nat, j: nat, t: Tally, p: Provider)
    requires size > 0 && start <= j < end == Min(start + size, |kbs|)
    ensures var one := DeleteKnowledgeBaseRun(dryRun, kbs[j].id, V1.DefaultMaxRetries, p);
      var pause: seq<Call> := if j + 1 < end then [Sleep(BetweenItemsDelay)] else [];
      var paused := one.provider.LoggedAll(pause);
      var r := ItemRun(dryRun, kbs, size, start, end, j, t, p);
      && r == ItemRun(dryRun, kbs, size, start, end, j + 1, V1.Count(t, one.value), paused)
      && Issued(p, r.provider) == Issued(p, one.provider) + pause + Issued(paused, r.provider)
  {
    var one := DeleteKnowledgeBaseRun(dryRun, kbs[j].id, V1.DefaultMaxRetries, p);
    var pause: seq<Call> := if j + 1 < end then [Sleep(BetweenItemsDelay)] else [];
    var paused := one.provider.LoggedAll(pause);
    assert paused == if j + 1 < end then one.provider.Logged(Sleep(BetweenItemsDelay)) else one.provider;
    var r := ItemRun(dryRun, kbs, size, start, end, j, t, p);
    ItemStep(dryRun, kbs, size, start, end, j, t, p, one.value, one.provider);
    IssuedExactly(one.provider, paused, pause);
    IssuedChain(p, one.provider, paused);
    IssuedChain(p, paused, r.provider);
  }

  /** One pass of the inner loop, as the cleaner takes it: once the knowledge
      base has been dealt with and the short pause made, the rest of the
      batch is what remains to be done. */
  lemma ItemStep(dryRun: bool, kbs: seq<KbSummary>, size: nat, start: nat, end: nat, j: nat, t: Tally, p: Provider, ok: bool, q: Provider)
    requires size > 0 && start <= j < end == Min(start + size, |kbs|)
    requires Run(ok, q) == DeleteKnowledgeBaseRun(dryRun, kbs[j].id, V1.DefaultMaxRetries, p)
    ensures var paused := if j + 1 < end then q.Logged(Sleep(BetweenItemsDelay)) else q;
      ItemRun(dryRun, kbs, size, start, end, j + 1, V1.Count(t, ok), paused) == ItemRun(dryRun, kbs, size, start, end, j, t, p)
  {
  }

  /** The end of a batch, unfolded: the long pause when knowledge bases
      remain, then the next batch, which starts where this one ended; after
      the last batch, nothing more. */
  lemma AfterIssued(dryRun: bool, kbs: seq<KbSummary>, size: nat, start: nat, end: nat, t: Tally, p: Provider)
    requires size > 0 && start < end == Min(start + size, |kbs|)
    ensures var pause: seq<Call> := if end < |kbs| then [Sleep(BetweenBatchesDelay)] else [];
      var paused := p.LoggedAll(pause);
      var r := AfterBatch(dryRun, kbs, size, start, end, t, p);
      && (end < |kbs| ==> start + size == end && r == BatchesRun(dryRun, kbs, size, end, t, paused))
      && (end == |kbs| ==> r == Run(t, p))
      && Issued(p, r.provider) == pause + Issued(paused, r.provider)
  {
    var pause: seq<Call> := if end < |kbs| then [Sleep(BetweenBatchesDelay)] else [];
    var paused := p.LoggedAll(pause);
    assert paused == if end < |kbs| then p.Logged(Sleep(BetweenBatchesDelay)) else p;
    var r := AfterBatch(dryRun, kbs, size, start, end, t, p);
    IssuedExactly(p, paused, pause);
    IssuedChain(p, paused, r.provider);
  }

  /** A position within a batch that starts on a multiple of `size` is its
      offset into the batch modulo `size`. */
  lemma ModWithin(x: nat, size: nat, start: nat)
    requires size > 0 && start % size == 0 && start <= x < start + size
    ensures x % size == x - start
  {
    var q := start / size;
    assert start == q * size;
    DivUnique(x, size, q);
  }

  /** The batch after one that starts on a multiple of `size` does too. */
  lemma NextBoundary(start: nat, size: nat)
    requires size > 0 && start % size == 0
    ensures (start + size) % size == 0
  {
    var q := start / size;
    assert start == q * size;
    assert start + size == (q + 1) * size;
    DivUnique(start + size, size, q + 1);
  }

  /** The nested batch loop is the flat one: from a batch boundary on, it
      deletes the knowledge bases in order, each followed by exactly the
      pause `PauseAfter` names for its position. */
  lemma {:induction false} BatchesFlat(dryRun: bool, kbs: seq<KbSummary>, size: nat, start: nat, t: Tally, p: Provider)
    requires size > 0 && start <= |kbs| && start % size == 0
    ensures BatchesRun(dryRun, kbs, size, start, t, p) == FlatRun(dryRun, kbs, size, start, t, p)
    decreases |kbs| - start, 2, 0, 0
  {
    if start < |kbs| {
      var end := Min(start + size, |kbs|);
      assert BatchesRun(dryRun, kbs, size, start, t, p) == NextItemRun(dryRun, kbs, size, start, end, start, t, p);
      NextItemFlat(dryRun, kbs, size, start, end, start, t, p);
    }
  }

  lemma {:induction false} NextItemFlat(dryRun: bool, kbs: seq<KbSummary>, size: nat, start: nat, end: nat, j: nat, t: Tally, p: Provider)
    requires size > 0 && start % size == 0 && start <= j < end == Min(start + size, |kbs|)
    ensures NextItemRun(dryRun, kbs, size, start, end, j, t, p) == FlatRun(dryRun, kbs, size, j, t, p)
    decreases |kbs| - start, 1, end - j, 0
  {
    var one := DeleteKnowledgeBaseRun(dryRun, kbs[j].id, V1.DefaultMaxRetries, p);
    var ok, q := one.value, one.provider;
    var counted := V1.Count(t, ok);
    var pause := PauseAfter(|kbs|, size, j);
    FlatStep(dryRun, kbs, size, j, t, p, ok, q);
    ItemStep(dryRun, kbs, size, start, end, j, t, p, ok, q);
    if j + 1 < end {
      ModWithin(j + 1, size, start);
      assert pause == [Sleep(BetweenItemsDelay)];
      NextItemFlat(dryRun, kbs, size, start, end, j + 1, counted, q.Logged(Sleep(BetweenItemsDelay)));
    } else {
      AfterIssued(dryRun, kbs, size, start, end, counted, q);
      if end < |kbs| {
        NextBoundary(start, size);
        assert pause == [Sleep(BetweenBatchesDelay)];
        BatchesFlat(dryRun, kbs, size, end, counted, q.LoggedAll(pause));
      } else {
        assert q.trace + pause == q.trace;
      }
    }
  }

  /** One step of the flat loop, as the cleaner takes it: once the knowledge
      base has been dealt with and its pause made, the rest of the list is
      what remains to be done. */
  lemma FlatStep(dryRun: bool, kbs: seq<KbSummary>, size: nat, j: nat, t: Tally, p: Provider, ok: bool, q: Provider)
    requires size > 0 && j < |kbs|
    requires Run(ok, q) == DeleteKnowledgeBaseRun(dryRun, kbs[j].id, V1.DefaultMaxRetries, p)
    ensures FlatRun(dryRun, kbs, size, j + 1, V1.Count(t, ok), q.LoggedAll(PauseAfter(|kbs|, size, j))) == FlatRun(dryRun, kbs, size, j, t, p)
  {
  }

  /** One step of the flat loop: the calls for the knowledge base at `j`,
      then its pause, then the calls for the knowledge bases after it. */
  lemma FlatIssued(dryRun: bool, kbs: seq<KbSummary>, size: nat, j: nat, t: Tally, p: Provider)
    requires size > 0 && j < |kbs|
    ensures var one := DeleteKnowledgeBaseRun(dryRun, kbs[j].id, V1.DefaultMaxRetries, p);
      var paused := one.provider.LoggedAll(PauseAfter(|kbs|, size, j));
      var r := FlatRun(dryRun, kbs, size, j, t, p);
      Issued(p, r.provider) == Issued(p, one.provider) + PauseAfter(|kbs|, size, j) + Issued(paused, r.provider)
  {
    var one := DeleteKnowledgeBaseRun(dryRun, kbs[j].id, V1.DefaultMaxRetries, p);
    var paused := one.provider.LoggedAll(PauseAfter(|kbs|, size, j));
    var r := FlatRun(dryRun, kbs, size, j, t, p);
    IssuedExactly(one.provider, paused, PauseAfter(|kbs|, size, j));
    IssuedChain(p, one.provider, paused);
    IssuedChain(p, paused, r.provider);
  }

  /** Every knowledge base from the batch starting at `start` on is counted
      once, as a success or as a failure; a dry run counts them all as
      successes. */
  lemma {:induction false} BatchesTally(dryRun: bool, kbs: seq<KbSummary>, size: nat, start: nat, t: Tally, p: Provider)
    requires size > 0 && start <= |kbs|
    ensures var r := BatchesRun(dryRun, kbs, size, start, t, p);
      && r.value.succeeded + r.value.failed == t.succeeded + t.failed + (|kbs| - start)
      && (dryRun ==> r.value == Tally(t.succeeded + (|kbs| - start), t.failed))
    decreases |kbs| - start, 2, 0, 0
  {
    if start < |kbs| {
      ItemTally(dryRun, kbs, size, start, Min(start + size, |kbs|), start, t, p);
    }
  }

  lemma {:induction false} ItemTally(dryRun: bool, kbs: seq<KbSummary>, size: nat, start: nat, end: nat, j: nat, t: Tally, p: Provider)
    requires size > 0 && start <= j <= end && start < end == Min(start + size, |kbs|)
    ensures var r := ItemRun(dryRun, kbs, size, start, end, j, t, p);
      && r.value.succeeded + r.value.failed == t.succeeded + t.failed + (|kbs| - j)
      && (dryRun ==> r.value == Tally(t.succeeded + (|kbs| - j), t.failed))
    decreases |kbs| - start, 1, end - j, 1
  {
    if j == end {
      AfterTally(dryRun, kbs, size, start, end, t, p);
    } else {
      var one := DeleteKnowledgeBaseRun(dryRun, kbs[j].id, V1.DefaultMaxRetries, p);
      var paused := if j + 1 < end then one.provider.Logged(Sleep(BetweenItemsDelay)) else one.provider;
      ItemTally(dryRun, kbs, size, start, end, j + 1, V1.Count(t, one.value), paused);
    }
  }

  lemma {:induction false} AfterTally(dryRun: bool, kbs: seq<KbSummary>, size: nat, start: nat, end: nat, t: Tally, p: Provider)
    requires size > 0 && start < end == Min(start + size, |kbs|)
    ensures var r := AfterBatch(dryRun, kbs, size, start, end, t, p);
      && r.value.succeeded + r.value.failed == t.succeeded + t.failed + (|kbs| - end)
      && (dryRun ==> r.value == Tally(t.succeeded + (|kbs| - end), t.failed))
    decreases |kbs| - start, 0, 0, 0
  {
    if end < |kbs| {
      BatchesTally(dryRun, kbs, size, end, t, p.Logged(Sleep(BetweenBatchesDelay)));
    }
  }

  /** The loop's own pauses are those of the schedule, in order; a dry run
      makes them and nothing else. */
  lemma {:induction false} BatchesPauses(dryRun: bool, kbs: seq<KbSummary>, size: nat, start: nat, t: Tally, p: Provider)
    requires size > 0 && start <= |kbs|
    ensures var calls := Issued(p, BatchesRun(dryRun, kbs, size, start, t, p).provider);
      var pauses := Pauses(Batches(|kbs|, size, start), |kbs|);
      && Filter(calls, IsSchedulePause) == pauses
      && (dryRun ==> calls == pauses)
    decreases |kbs| - start, 2, 0, 0
  {
    var r := BatchesRun(dryRun, kbs, size, start, t, p);
    if start == |kbs| {
      IssuedExactly(p, r.provider, []);
    } else {
      var end := Min(start + size, |kbs|);
      var rest := Batches(|kbs|, size, start + size);
      assert Batches(|kbs|, size, start) == [(start, end)] + rest;
      assert ([(start, end)] + rest)[1..] == rest;
      ItemPauses(dryRun, kbs, size, start, end, start, t, p);
    }
  }

  lemma {:induction false} ItemPauses(dryRun: bool, kbs: seq<KbSummary>, size: nat, start: nat, end: nat, j: nat, t: Tally, p: Provider)
    requires size > 0 && start <= j <= end && start < end == Min(start + size, |kbs|)
    ensures var calls := Issued(p, ItemRun(dryRun, kbs, size, start, end, j, t, p).provider);
      var pauses := Repeat(Sleep(BetweenItemsDelay), Gaps((j, end))) + PausesAfter(|kbs|, size, start, end);
      && Filter(calls, IsSchedulePause) == pauses
      && (dryRun ==> calls == pauses)
    decreases |kbs| - start, 1, end - j, 1
  {
    if j == end {
      AfterPauses(dryRun, kbs, size, start, end, t, p);
      assert Repeat(Sleep(BetweenItemsDelay), 0) + PausesAfter(|kbs|, size, start, end) == PausesAfter(|kbs|, size, start, end);
    } else {
      NextItemPauses(dryRun, kbs, size, start, end, j, t, p);
    }
  }

  lemma {:induction false} NextItemPauses(dryRun: bool, kbs: seq<KbSummary>, size: nat, start: nat, end: nat, j: nat, t: Tally, p: Provider)
    requires size > 0 && start <= j < end == Min(start + size, |kbs|)
    ensures var calls := Issued(p, ItemRun(dryRun, kbs, size, start, end, j, t, p).provider);
      var pauses := Repeat(Sleep(BetweenItemsDelay), Gaps((j, end))) + PausesAfter(|kbs|, size, start, end);
      && Filter(calls, IsSchedulePause) == pauses
      && (dryRun ==> calls == pauses)
    decreases |kbs| - start, 1, end - j, 0
  {
    var tail := PausesAfter(|kbs|, size, start, end);
    var one := DeleteKnowledgeBaseRun(dryRun, kbs[j].id, V1.DefaultMaxRetries, p);
    var pause: seq<Call> := if j + 1 < end then [Sleep(BetweenItemsDelay)] else [];
    var paused := one.provider.LoggedAll(pause);
    var r := ItemRun(dryRun, kbs, size, start, end, j, t, p);
    var calls, rest := Issued(p, r.provider), Issued(paused, r.provider);
    var later := Repeat(Sleep(BetweenItemsDelay), Gaps((j + 1, end))) + tail;
    ItemPauseStep(dryRun, kbs, size, start, end, j, t, p);
    ItemPauses(dryRun, kbs, size, start, end, j + 1, V1.Count(t, one.value), paused);
    assert Filter(rest, IsSchedulePause) == later;
    if j + 1 < end {
      assert Gaps((j, end)) == Gaps((j + 1, end)) + 1;
      GapsCons(Gaps((j + 1, end)), tail);
    } else {
      assert pause == [] && Gaps((j, end)) == 0 == Gaps((j + 1, end));
      assert pause + later == later;
    }
    assert Repeat(Sleep(BetweenItemsDelay), Gaps((j, end))) + tail == pause + later;
  }


  lemma GapsCons(k: nat, tail: seq<Call>)
    ensures Repeat(Sleep(BetweenItemsDelay), k + 1) + tail == [Sleep(BetweenItemsDelay)] + (Repeat(Sleep(BetweenItemsDelay), k) + tail)
  {
  }

  /** The loop's own pauses in one pass of the inner loop: the short pause,
      if any, in front of those of the rest. */
  lemma ItemPauseStep(dryRun: bool, kbs: seq<KbSummary>, size: nat, start: nat, end: nat, j: nat, t: Tally, p: Provider)
    requires size > 0 && start <= j < end == Min(start + size, |kbs|)
    ensures var one := DeleteKnowledgeBaseRun(dryRun, kbs[j].id, V1.DefaultMaxRetries, p);
      var pause: seq<Call> := if j + 1 < end then [Sleep(BetweenItemsDelay)] else [];
      var paused := one.provider.LoggedAll(pause);
      var r := ItemRun(dryRun, kbs, size, start, end, j, t, p);
      var calls, rest := Issued(p, r.provider), Issued(paused, r.provider);
      && r == ItemRun(dryRun, kbs, size, start, end, j + 1, V1.Count(t, one.value), paused)
      && Filter(calls, IsSchedulePause) == pause + Filter(rest, IsSchedulePause)
      && (dryRun ==> calls == pause + rest)
  {
    var one := DeleteKnowledgeBaseRun(dryRun, kbs[j].id, V1.DefaultMaxRetries, p);
    var pause: seq<Call> := if j + 1 < end then [Sleep(BetweenItemsDelay)] else [];
    var paused := one.provider.LoggedAll(pause);
    var r := ItemRun(dryRun, kbs, size, start, end, j, t, p);
    var first, rest := Issued(p, one.provider), Issued(paused, r.provider);
    ItemIssued(dryRun, kbs, size, start, end, j, t, p);
    DeleteKnowledgeBaseQuiet(dryRun, kbs[j].id, p);
    PauseBetween(first, pause, rest);
    if dryRun {
      assert first == [];
    }
  }

  /** A pause of the loop after calls that make none, then the rest. */
  lemma PauseBetween(first: seq<Call>, pause: seq<Call>, rest: seq<Call>)
    requires Filter(first, IsSchedulePause) == []
    requires forall i :: 0 <= i < |pause| ==> IsSchedulePause(pause[i])
    ensures Filter(first + pause + rest, IsSchedulePause) == pause + Filter(rest, IsSchedulePause)
  {
    FilterAppend(first, pause, IsSchedulePause);
    FilterAppend(first + pause, rest, IsSchedulePause);
    FilterAll(pause);
  }

  lemma {:induction false} FilterAll(pause: seq<Call>)
    requires forall i :: 0 <= i < |pause| ==> IsSchedulePause(pause[i])
    ensures Filter(pause, IsSchedulePause) == pause
    decreases |pause|
  {
    if pause != [] {
      FilterAll(pause[1..]);
    }
  }

  lemma {:induction false} AfterPauses(dryRun: bool, kbs: seq<KbSummary>, size: nat, start: nat, end: nat, t: Tally, p: Provider)
    requires size > 0 && start < end == Min(start + size, |kbs|)
    ensures var calls := Issued(p, AfterBatch(dryRun, kbs, size, start, end, t, p).provider);
      var pauses := PausesAfter(|kbs|, size, start, end);
      && Filter(calls, IsSchedulePause) == pauses
      && (dryRun ==> calls == pauses)
    decreases |kbs| - start, 0, 0, 0
  {
    var pause: seq<Call> := if end < |kbs| then [Sleep(BetweenBatchesDelay)] else [];
    var paused := p.LoggedAll(pause);
    var r := AfterBatch(dryRun, kbs, size, start, end, t, p);
    AfterIssued(dryRun, kbs, size, start, end, t, p);
    if end < |kbs| {
      BatchesPauses(dryRun, kbs, size, end, t, paused);
      PauseBetween([], pause, Issued(paused, r.provider));
      assert [] + pause == pause;
    } else {
      IssuedExactly(p, r.provider, []);
    }
  }

  /** Outside a dry run, the knowledge bases from the batch starting at
      `start` on are deleted once each, in listed order, each one tried one
      to three times. */
  lemma {:induction false} BatchesOrder(kbs: seq<KbSummary>, size: nat, start: nat, t: Tally, p: Provider)
    requires size > 0 && start <= |kbs|
    ensures var r := BatchesRun(false, kbs, size, start, t, p);
      AttemptedInOrder(KbTargets(Issued(p, r.provider)), V1.KbIds(kbs[start..]), V1.DefaultMaxRetries)
    decreases |kbs| - start, 2, 0, 0
  {
    var r := BatchesRun(false, kbs, size, start, t, p);
    if start == |kbs| {
      IssuedExactly(p, r.provider, []);
      assert kbs[start..] == [];
      AttemptedNothing(V1.DefaultMaxRetries);
    } else {
      ItemOrder(kbs, size, start, Min(start + size, |kbs|), start, t, p);
    }
  }

  lemma {:induction false} ItemOrder(kbs: seq<KbSummary>, size: nat, start: nat, end: nat, j: nat, t: Tally, p: Provider)
    requires size > 0 && start <= j <= end && start < end == Min(start + size, |kbs|)
    ensures var r := ItemRun(false, kbs, size, start, end, j, t, p);
      AttemptedInOrder(KbTargets(Issued(p, r.provider)), V1.KbIds(kbs[j..]), V1.DefaultMaxRetries)
    decreases |kbs| - start, 1, end - j, 1
  {
    if j == end {
      AfterOrder(kbs, size, start, end, t, p);
    } else {
      var one := DeleteKnowledgeBaseRun(false, kbs[j].id, V1.DefaultMaxRetries, p);
      var pause: seq<Call> := if j + 1 < end then [Sleep(BetweenItemsDelay)] else [];
      var paused := one.provider.LoggedAll(pause);
      var r := ItemRun(false, kbs, size, start, end, j, t, p);
      var rest := Issued(paused, r.provider);
      ItemIssued(false, kbs, size, start, end, j, t, p);
      ItemOrder(kbs, size, start, end, j + 1, V1.Count(t, one.value), paused);
      var n := DeleteKnowledgeBaseTargets(kbs[j].id, p);
      Paused(Issued(p, one.provider), pause, rest);
      assert kbs[j..][1..] == kbs[j + 1..];
      AttemptedInOrderCons(kbs[j].id, n, KbTargets(rest), V1.KbIds(kbs[j + 1..]), V1.DefaultMaxRetries);
    }
  }

  lemma {:induction false} AfterOrder(kbs: seq<KbSummary>, size: nat, start: nat, end: nat, t: Tally, p: Provider)
    requires size > 0 && start < end == Min(start + size, |kbs|)
    ensures var r := AfterBatch(false, kbs, size, start, end, t, p);
      AttemptedInOrder(KbTargets(Issued(p, r.provider)), V1.KbIds(kbs[end..]), V1.DefaultMaxRetries)
    decreases |kbs| - start, 0, 0, 0
  {
    var pause: seq<Call> := if end < |kbs| then [Sleep(BetweenBatchesDelay)] else [];
    var paused := p.LoggedAll(pause);
    var r := AfterBatch(false, kbs, size, start, end, t, p);
    AfterIssued(false, kbs, size, start, end, t, p);
    if end < |kbs| {
      BatchesOrder(kbs, size, end, t, paused);
      Paused([], pause, Issued(paused, r.provider));
      assert [] + pause + Issued(paused, r.provider) == pause + Issued(paused, r.provider);
    } else {
      IssuedExactly(p, r.provider, []);
      assert kbs[end..] == [];
      AttemptedNothing(V1.DefaultMaxRetries);
    }
  }

  // ---------------------------------------------------------------------------
  // The cleaner

  class CleanerV2 {
    const dryRun: bool
    var client: Provider

    constructor (dryRun: bool, client: Provider)
      ensures this.dryRun == dryRun && this.client == client
    {
      this.dryRun := dryRun;
      this.client := client;
    }

    /** `list_knowledge_bases`: extend the result page by page, pausing
        after every page but the first; any failure gives nothing. */
    method ListKnowledgeBases() returns (kbs: seq<KbSummary>)
      modifies this
      ensures Run(kbs, client) == ListKnowledgeBasesRun(old(client))
    {
      var listing := client.NextKbListing();
      client := client.AfterKbListing();
      ghost var start := client;
      kbs := [];
      var pageNum := 0;
      while pageNum < |listing.pages|
        invariant 0 <= pageNum <= |listing.pages|
        invariant kbs == Flatten(listing.pages[..pageNum])
        invariant client == start.LoggedAll(PageCalls(pageNum))
      {
        client := client.Logged(KbPage);
        assert listing.pages[..pageNum + 1][..pageNum] == listing.pages[..pageNum];
        kbs := kbs + listing.pages[pageNum];
        pageNum := pageNum + 1;
        if pageNum > 1 {
          client := client.Logged(Sleep(PageDelay));
        }
      }
      assert listing.pages[..pageNum] == listing.pages;
      if listing.stop.Some? {
        client := client.Logged(KbPage);
        kbs := [];
      }
    }

    /** `list_data_sources_with_timeout`: a failure or a timeout gives
        nothing. */
    method ListDataSources(kb: string) returns (dss: seq<DsSummary>)
      modifies this
      ensures Run(dss, client) == V1.ListDataSourcesRun(kb, old(client))
    {
      var listing := client.NextDsListing();
      client := client.AfterDsListing();
      ghost var start := client;
      dss := [];
      var k := 0;
      while k < |listing.pages|
        invariant 0 <= k <= |listing.pages|
        invariant dss == Flatten(listing.pages[..k])
        invariant client == start.LoggedAll(Repeat(DsPage(kb), k))
      {
        client := client.Logged(DsPage(kb));
        RepeatSnoc(DsPage(kb), k);
        assert listing.pages[..k + 1][..k] == listing.pages[..k];
        dss := dss + listing.pages[k];
        k := k + 1;
      }
      assert listing.pages[..k] == listing.pages;
      if listing.stop.Some? {
        client := client.Logged(DsPage(kb));
        RepeatSnoc(DsPage(kb), k);
        dss := [];
      }
    }

    /** `update_data_source_deletion_policy_with_timeout`. */
    method UpdateDataSourceDeletionPolicy(kb: string, ds: string) returns (ok: bool)
      modifies this
      ensures Run(ok, client) == RetainPolicyRun(kb, ds, old(client))
    {
      var got := client.NextFetch();
      client := client.AfterFetch().Logged(DsGet(kb, ds, got));
      if got.Fail? {
        return false;
      }
      var record := got.value;
      var answer := client.NextUpdate();
      client := client.AfterUpdate().Logged(DsUpdate(kb, ds, record.name, record.configuration, Retain, answer));
      ok := answer.Ok?;
    }

    /** `delete_data_source_with_timeout`. */
    method DeleteDataSource(kb: string, ds: string, maxRetries: int) returns (ok: bool)
      modifies this
      ensures Run(ok, client) == DeleteDataSourceRun(kb, ds, 0, maxRetries, old(client))
    {
      ghost var all := DeleteDataSourceRun(kb, ds, 0, maxRetries, client);
      var attempt: nat := 0;
      while attempt < maxRetries
        invariant DeleteDataSourceRun(kb, ds, attempt, maxRetries, client) == all
        decreases maxRetries - attempt
      {
        var answer := client.NextDelete();
        client := client.AfterDelete().Logged(DsDelete(kb, ds, answer));
        if answer.Ok? {
          return true;
        }
        if answer.failure.Timeout? {
          if attempt < maxRetries - 1 {
            client := client.Logged(Sleep(TimeoutRetryDelay));
          } else {
            return false;
          }
        } else if VectorStoreText(answer) && attempt < maxRetries - 1 {
          var updated := UpdateDataSourceDeletionPolicy(kb, ds);
          client := client.Logged(Sleep(VectorStoreRetryDelay));
        } else {
          return false;
        }
        attempt := attempt + 1;
      }
      return false;
    }

    /** The knowledge-base delete loop of `delete_knowledge_base_with_timeout`:
        a timeout is retried like any other error. */
    method DeleteKnowledgeBaseAttempts(kb: string, maxRetries: int) returns (ok: bool)
      modifies this
      ensures Run(ok, client) == KbDeleteAttempts(kb, 0, maxRetries, KbRetryDelay, old(client))
    {
      ghost var all := KbDeleteAttempts(kb, 0, maxRetries, KbRetryDelay, client);
      var attempt: nat := 0;
      while attempt < maxRetries
        invariant KbDeleteAttempts(kb, attempt, maxRetries, KbRetryDelay, client) == all
        decreases maxRetries - attempt
      {
        var answer := client.NextDelete();
        client := client.AfterDelete().Logged(KbDelete(kb, answer));
        if answer.Ok? {
          return true;
        }
        if attempt < maxRetries - 1 {
          client := client.Logged(Sleep(KbRetryDelay));
          attempt := attempt + 1;
        } else {
          return false;
        }
      }
      return false;
    }

    /** The data-source loop of `delete_knowledge_base_with_timeout`: a
        failed deletion does not stop it. */
    method DeleteDataSources(kb: string, dss: seq<DsSummary>)
      modifies this
      ensures client == DataSourcePhase(kb, dss, 0, old(client))
    {
      ghost var all := DataSourcePhase(kb, dss, 0, client);
      var i := 0;
      while i < |dss|
        invariant 0 <= i <= |dss| && DataSourcePhase(kb, dss, i, client) == all
      {
        var deleted := DeleteDataSource(kb, dss[i].id, V1.DefaultMaxRetries);
        i := i + 1;
      }
    }

    /** `delete_knowledge_base_with_timeout`. */
    method DeleteKnowledgeBase(kb: string, maxRetries: int) returns (ok: bool)
      modifies this
      ensures Run(ok, client) == DeleteKnowledgeBaseRun(dryRun, kb, maxRetries, old(client))
    {
      if dryRun {
        return true;
      }
      var dss := ListDataSources(kb);
      DeleteDataSources(kb, dss);
      if dss != [] {
        client := client.Logged(Sleep(SettleDelay));
      }
      ok := DeleteKnowledgeBaseAttempts(kb, maxRetries);
    }

    /** One pass of the inner loop: delete the knowledge base at `j` with
        the default number of tries, count the outcome, and pause briefly
        unless it is the last of its batch. */
    method DeleteItem(kbs: seq<KbSummary>, batchSize: nat, batchStart: nat, batchEnd: nat, j: nat, t: Tally)
      returns (counted: Tally)
      requires batchSize > 0 && batchStart <= j < batchEnd == Min(batchStart + batchSize, |kbs|)
      modifies this
      ensures ItemRun(dryRun, kbs, batchSize, batchStart, batchEnd, j + 1, counted, client)
        == ItemRun(dryRun, kbs, batchSize, batchStart, batchEnd, j, t, old(client))
    {
      ghost var before := client;
      var ok := DeleteKnowledgeBase(kbs[j].id, V1.DefaultMaxRetries);
      ghost var done := client;
      counted := V1.Count(t, ok);
      if j + 1 < batchEnd {
        client := client.Logged(Sleep(BetweenItemsDelay));
      }
      ItemStep(dryRun, kbs, batchSize, batchStart, batchEnd, j, t, before, ok, done);
    }

    /** The inner loop of `delete_all_knowledge_bases`, over the batch
        `kbs[batchStart..batchEnd]`: the counters `t` grow by one per
        knowledge base, with a short pause between two of them and none after
        the last. */
    method DeleteBatch(kbs: seq<KbSummary>, batchSize: nat, batchStart: nat, batchEnd: nat, t: Tally) returns (counted: Tally)
      requires batchSize > 0 && batchStart < batchEnd == Min(batchStart + batchSize, |kbs|)
      modifies this
      ensures AfterBatch(dryRun, kbs, batchSize, batchStart, batchEnd, counted, client)
        == ItemRun(dryRun, kbs, batchSize, batchStart, batchEnd, batchStart, t, old(client))
    {
      ghost var all := ItemRun(dryRun, kbs, batchSize, batchStart, batchEnd, batchStart, t, client);
      var batch := kbs[batchStart..batchEnd];
      counted := t;
      var i := 0;
      while i < |batch|
        invariant 0 <= i <= |batch|
        invariant ItemRun(dryRun, kbs, batchSize, batchStart, batchEnd, batchStart + i, counted, client) == all
      {
        counted := DeleteItem(kbs, batchSize, batchStart, batchEnd, batchStart + i, counted);
        i := i + 1;
      }
    }

    /** The batch loop of `delete_all_knowledge_bases` and its two counters. */
    method DeleteInBatches(kbs: seq<KbSummary>, batchSize: nat) returns (succeeded: nat, failed: nat)
      requires batchSize > 0
      modifies this
      ensures Run(Tally(succeeded, failed), client) == BatchesRun(dryRun, kbs, batchSize, 0, Tally(0, 0), old(client))
    {
      ghost var all := BatchesRun(dryRun, kbs, batchSize, 0, Tally(0, 0), client);
      var counted := Tally(0, 0);
      var batchStart: nat := 0;
      while batchStart < |kbs|
        invariant BatchesRun(dryRun, kbs, batchSize, batchStart, counted, client) == all
        decreases |kbs| - batchStart
      {
        var batchEnd := Min(batchStart + batchSize, |kbs|);
        counted := DeleteBatch(kbs, batchSize, batchStart, batchEnd, counted);
        if batchEnd < |kbs| {
          client := client.Logged(Sleep(BetweenBatchesDelay));
        }
        batchStart := batchStart + batchSize;
      }
      succeeded, failed := counted.succeeded, counted.failed;
    }

    /** `delete_all_knowledge_bases(confirm, batch_size)`; `reply` is what
        `input()` would return if the question is asked. */
    method DeleteAllKnowledgeBases(confirm: bool, reply: string, batchSize: nat := DefaultBatchSize) returns (summary: V1.Summary)
      requires batchSize > 0
      modifies this
      ensures Run(summary, client) == DeleteAllRun(dryRun, confirm, reply, batchSize, old(client))
    {
      var kbs := ListKnowledgeBases();
      if kbs == [] {
        return V1.NothingFound;
      }
      if !dryRun && !confirm {
        client := client.Logged(Prompt);
        if reply != V1.Confirmation {
          return V1.Cancelled;
        }
      }
      var succeeded, failed;
      succeeded, failed := DeleteInBatches(kbs, batchSize);
      summary := V1.Completed(succeeded, failed);
    }
  }
}
