/** The first knowledge-base cleaner (delete_bedrock_kbs.py).

    The cleaner lists every knowledge base, asks for confirmation, and then
    deletes each knowledge base after its data sources. A data-source
    deletion that fails because of the vector store is retried after the
    source's deletion policy has been set to RETAIN.

    Each operation is specified by a function that runs it against the
    scripted provider (`...Run`). The class `Cleaner` carries out the same
    operation step by step and is proved to agree with its function. The
    lemmas state what the source promises about those functions. */
module KbCleaner {
  import opened Text
  import opened ProviderModel

  /** `max_retries` when the caller passes none. */
  const DefaultMaxRetries: nat := 3
  /** The only reply to the prompt that lets the deletion go ahead. */
  const Confirmation: string := "DELETE"
  /** `time.sleep` durations, in milliseconds. */
  const VectorStoreRetryDelay: nat := 2000
  const SettleDelay: nat := 5000
  const KbRetryDelay: nat := 10000
  const BetweenKbsDelay: nat := 2000

  /** How `delete_all_knowledge_bases` ended. */
  datatype Summary = NothingFound | Cancelled | Completed(succeeded: nat, failed: nat)

  /** A failed data-source deletion that the retry loop treats as a vector-store
      problem: a ClientError whose message mentions the vector store. */
  predicate VectorStoreFailure(answer: Reply<()>)
  {
    answer.Fail? && answer.failure.ClientError? && IsVectorStoreError(answer.failure.message)
  }

  function DsIds(dss: seq<DsSummary>): seq<string>
  {
    if dss == [] then [] else [dss[0].id] + DsIds(dss[1..])
  }

  function KbIds(kbs: seq<KbSummary>): seq<string>
  {
    if kbs == [] then [] else [kbs[0].id] + KbIds(kbs[1..])
  }

  // ---------------------------------------------------------------------------
  // Specification functions

  /** `list_knowledge_bases`: one page request per page; a failed listing
      gives nothing. */
  function ListKnowledgeBasesRun(p: Provider): (r: Run<seq<KbSummary>>)
    ensures Follows(p, r.provider)
  {
    var l := p.NextKbListing();
    Run(Collected(l), p.AfterKbListing().LoggedAll(Repeat(KbPage, Requests(l))))
  }

  /** `list_data_sources`. */
  function ListDataSourcesRun(kb: string, p: Provider): (r: Run<seq<DsSummary>>)
    ensures Follows(p, r.provider)
  {
    var l := p.NextDsListing();
    Run(Collected(l), p.AfterDsListing().LoggedAll(Repeat(DsPage(kb), Requests(l))))
  }

  /** `delete_data_source` from attempt number `attempt` on. */
  function DeleteDataSourceRun(kb: string, ds: string, attempt: nat, maxRetries: int, p: Provider): (r: Run<bool>)
    ensures Follows(p, r.provider)
    decreases maxRetries - attempt
  {
    if attempt >= maxRetries then Run(false, p)
    else
      var answer := p.NextDelete();
      var q := p.AfterDelete().Logged(DsDelete(kb, ds, answer));
      if answer.Ok? then Run(true, q)
      else if VectorStoreFailure(answer) && attempt < maxRetries - 1 then
        var policy := RetainPolicyRun(kb, ds, q);
        DeleteDataSourceRun(kb, ds, attempt + 1, maxRetries, policy.provider.Logged(Sleep(VectorStoreRetryDelay)))
      else Run(false, q)
  }

  /** The data-source loop of `delete_knowledge_base`, from the `i`-th listed
      data source on; a failed deletion does not stop it. */
  function DataSourcePhase(kb: string, dss: seq<DsSummary>, i: nat, p: Provider): (q: Provider)
    requires i <= |dss|
    ensures Follows(p, q)
    decreases |dss| - i
  {
    if i == |dss| then p
    else DataSourcePhase(kb, dss, i + 1, DeleteDataSourceRun(kb, dss[i].id, 0, DefaultMaxRetries, p).provider)
  }

  /** The data-source stage of `delete_knowledge_base`: list the data
      sources, delete each one, and wait if there were any. The client just
      before the first knowledge-base delete call. */
  function Settled(kb: string, p: Provider): (q: Provider)
    ensures Follows(p, q)
  {
    var listed := ListDataSourcesRun(kb, p);
    var phase := DataSourcePhase(kb, listed.value, 0, listed.provider);
    if listed.value != [] then phase.Logged(Sleep(SettleDelay)) else phase
  }

  /** `delete_knowledge_base`: nothing at all in a dry run; otherwise the
      data-source stage, then the knowledge-base delete loop. */
  function DeleteKnowledgeBaseRun(dryRun: bool, kb: string, maxRetries: int, p: Provider): (r: Run<bool>)
    ensures Follows(p, r.provider)
  {
    if dryRun then Run(true, p) else KbDeleteAttempts(kb, 0, maxRetries, KbRetryDelay, Settled(kb, p))
  }

  /** The counters after one more knowledge base. */
  function Count(t: Tally, ok: bool): Tally
  {
    if ok then Tally(t.succeeded + 1, t.failed) else Tally(t.succeeded, t.failed + 1)
  }

  /** The loop of `delete_all_knowledge_bases` from the `i`-th knowledge base
      on: the counters it adds up. */
  function DeleteEachRun(dryRun: bool, kbs: seq<KbSummary>, i: nat, p: Provider): (r: Run<Tally>)
    requires i <= |kbs|
    ensures Follows(p, r.provider)
    decreases |kbs| - i, 1
  {
    if i == |kbs| then Run(Tally(0, 0), p) else DeleteNextRun(dryRun, kbs, i, p)
  }

  /** One pass of that loop, for the `i`-th knowledge base, and the rest of
      the loop after it: a pause separates knowledge bases outside a dry run. */
  function DeleteNextRun(dryRun: bool, kbs: seq<KbSummary>, i: nat, p: Provider): (r: Run<Tally>)
    requires i < |kbs|
    ensures Follows(p, r.provider)
    decreases |kbs| - i, 0
  {
    var one := DeleteKnowledgeBaseRun(dryRun, kbs[i].id, DefaultMaxRetries, p);
    var paused := if !dryRun && i + 1 < |kbs| then one.provider.Logged(Sleep(BetweenKbsDelay)) else one.provider;
    var rest := DeleteEachRun(dryRun, kbs, i + 1, paused);
    Run(Count(rest.value, one.value), rest.provider)
  }

  /** `delete_all_knowledge_bases(confirm)`, where `reply` is what the user
      would type at the prompt. */
  function DeleteAllRun(dryRun: bool, confirm: bool, reply: string, p: Provider): (r: Run<Summary>)
    ensures Follows(p, r.provider)
  {
    var listed := ListKnowledgeBasesRun(p);
    var kbs := listed.value;
    if kbs == [] then Run(NothingFound, listed.provider)
    else
      var asked := if !dryRun && !confirm then listed.provider.Logged(Prompt) else listed.provider;
      if !dryRun && !confirm && reply != Confirmation then Run(Cancelled, asked)
      else
        var each := DeleteEachRun(dryRun, kbs, 0, asked);
        Run(Completed(each.value.succeeded, each.value.failed), each.provider)
  }

  // ---------------------------------------------------------------------------
  // delete_data_source

  /** One retried vector-store failure, unfolded: the failed delete call, the
      policy update and the pause, then the remaining attempts. */
  lemma DeleteDataSourceRetried(kb: string, ds: string, attempt: nat, maxRetries: int, p: Provider)
    requires attempt < maxRetries - 1 && VectorStoreFailure(p.NextDelete())
    ensures var q := p.AfterDelete().Logged(DsDelete(kb, ds, p.NextDelete()));
      var policy := RetainPolicyRun(kb, ds, q);
      var resumed := policy.provider.Logged(Sleep(VectorStoreRetryDelay));
      var r := DeleteDataSourceRun(kb, ds, attempt, maxRetries, p);
      && r == DeleteDataSourceRun(kb, ds, attempt + 1, maxRetries, resumed)
      && Issued(p, r.provider) == [DsDelete(kb, ds, p.NextDelete())] + Issued(q, policy.provider)
           + [Sleep(VectorStoreRetryDelay)] + Issued(resumed, r.provider)
  {
    var call := DsDelete(kb, ds, p.NextDelete());
    var q := p.AfterDelete().Logged(call);
    var policy := RetainPolicyRun(kb, ds, q);
    var resumed := policy.provider.Logged(Sleep(VectorStoreRetryDelay));
    var r := DeleteDataSourceRun(kb, ds, attempt, maxRetries, p);
    IssuedExactly(p, q, [call]);
    IssuedExactly(policy.provider, resumed, [Sleep(VectorStoreRetryDelay)]);
    IssuedChain(p, q, policy.provider);
    IssuedChain(p, policy.provider, resumed);
    IssuedChain(p, resumed, r.provider);
  }

  /** An attempt of `delete_data_source` that ends the loop: its one call. */
  lemma DeleteDataSourceStopped(kb: string, ds: string, attempt: nat, maxRetries: int, p: Provider)
    requires attempt < maxRetries
    requires !(VectorStoreFailure(p.NextDelete()) && attempt < maxRetries - 1)
    ensures var r := DeleteDataSourceRun(kb, ds, attempt, maxRetries, p);
      && Issued(p, r.provider) == [DsDelete(kb, ds, p.NextDelete())]
      && (r.value <==> p.NextDelete().Ok?)
  {
    IssuedExactly(p, DeleteDataSourceRun(kb, ds, attempt, maxRetries, p).provider, [DsDelete(kb, ds, p.NextDelete())]);
  }

  /** At most one delete call per remaining attempt, at least one when any
      attempt remains, and none once they are used up. */
  lemma {:induction false} DeleteDataSourceCount(kb: string, ds: string, attempt: nat, maxRetries: int, p: Provider)
    ensures var r := DeleteDataSourceRun(kb, ds, attempt, maxRetries, p);
      var D := Filter(Issued(p, r.provider), IsDsDelete);
      && (attempt >= maxRetries ==> r.provider == p && !r.value)
      && (attempt < maxRetries ==> 1 <= |D| <= maxRetries - attempt)
    decreases maxRetries - attempt
  {
    var r := DeleteDataSourceRun(kb, ds, attempt, maxRetries, p);
    if attempt < maxRetries {
      var call := DsDelete(kb, ds, p.NextDelete());
      if VectorStoreFailure(p.NextDelete()) && attempt < maxRetries - 1 {
        var resumed := RetainPolicyRun(kb, ds, p.AfterDelete().Logged(call)).provider.Logged(Sleep(VectorStoreRetryDelay));
        RetriedDeletes(kb, ds, attempt, maxRetries, p);
        DeleteDataSourceCount(kb, ds, attempt + 1, maxRetries, resumed);
      } else {
        DeleteDataSourceStopped(kb, ds, attempt, maxRetries, p);
        assert Filter([call], IsDsDelete) == [call];
      }
    }
  }

  /** Every delete call but the last failed with a vector-store ClientError. */
  ghost predicate RetriedOnVectorStore(D: seq<Call>)
  {
    forall j :: 0 <= j < |D| - 1 ==> D[j].DsDelete? && VectorStoreFailure(D[j].answer)
  }

  /** Success exactly when the last delete call succeeded; every earlier call
      failed with a vector-store ClientError; and a failure that ends the loop
      before its last attempt is one the loop does not retry. */
  lemma {:induction false} DeleteDataSourceOutcome(kb: string, ds: string, attempt: nat, maxRetries: int, p: Provider)
    ensures var r := DeleteDataSourceRun(kb, ds, attempt, maxRetries, p);
      var D := Filter(Issued(p, r.provider), IsDsDelete);
      && (r.value <==> |D| > 0 && D[|D| - 1].answer.Ok?)
      && RetriedOnVectorStore(D)
      && (!r.value && 0 < |D| < maxRetries - attempt ==> !VectorStoreFailure(D[|D| - 1].answer))
    decreases maxRetries - attempt, 1
  {
    var r := DeleteDataSourceRun(kb, ds, attempt, maxRetries, p);
    if attempt >= maxRetries {
      IssuedExactly(p, r.provider, []);
    } else {
      var call := DsDelete(kb, ds, p.NextDelete());
      if VectorStoreFailure(p.NextDelete()) && attempt < maxRetries - 1 {
        RetriedOutcome(kb, ds, attempt, maxRetries, p);
      } else {
        DeleteDataSourceStopped(kb, ds, attempt, maxRetries, p);
        assert Filter([call], IsDsDelete) == [call];
      }
    }
  }

  /** The outcome after a retried vector-store failure: that delete call
      in front of those of the remaining attempts. */
  lemma {:induction false} RetriedOutcome(kb: string, ds: string, attempt: nat, maxRetries: int, p: Provider)
    requires attempt < maxRetries - 1 && VectorStoreFailure(p.NextDelete())
    ensures var r := DeleteDataSourceRun(kb, ds, attempt, maxRetries, p);
      var D := Filter(Issued(p, r.provider), IsDsDelete);
      && (r.value <==> |D| > 0 && D[|D| - 1].answer.Ok?)
      && RetriedOnVectorStore(D)
      && (!r.value && 0 < |D| < maxRetries - attempt ==> !VectorStoreFailure(D[|D| - 1].answer))
    decreases maxRetries - attempt, 0
  {
    var r := DeleteDataSourceRun(kb, ds, attempt, maxRetries, p);
    var call := DsDelete(kb, ds, p.NextDelete());
    var resumed := RetainPolicyRun(kb, ds, p.AfterDelete().Logged(call)).provider.Logged(Sleep(VectorStoreRetryDelay));
    RetriedDeletes(kb, ds, attempt, maxRetries, p);
    DeleteDataSourceOutcome(kb, ds, attempt + 1, maxRetries, resumed);
    DeleteDataSourceCount(kb, ds, attempt + 1, maxRetries, resumed);
    RetriedFirst(Filter(Issued(p, r.provider), IsDsDelete), Filter(Issued(resumed, r.provider), IsDsDelete), call);
  }

  /** The delete calls of a retried vector-store failure: that one, then
      those of the remaining attempts. */
  lemma RetriedDeletes(kb: string, ds: string, attempt: nat, maxRetries: int, p: Provider)
    requires attempt < maxRetries - 1 && VectorStoreFailure(p.NextDelete())
    ensures var q := p.AfterDelete().Logged(DsDelete(kb, ds, p.NextDelete()));
      var resumed := RetainPolicyRun(kb, ds, q).provider.Logged(Sleep(VectorStoreRetryDelay));
      var r := DeleteDataSourceRun(kb, ds, attempt, maxRetries, p);
      && r == DeleteDataSourceRun(kb, ds, attempt + 1, maxRetries, resumed)
      && Filter(Issued(p, r.provider), IsDsDelete) == [DsDelete(kb, ds, p.NextDelete())] + Filter(Issued(resumed, r.provider), IsDsDelete)
  {
    var call := DsDelete(kb, ds, p.NextDelete());
    var q := p.AfterDelete().Logged(call);
    var policy := RetainPolicyRun(kb, ds, q);
    var resumed := policy.provider.Logged(Sleep(VectorStoreRetryDelay));
    var r := DeleteDataSourceRun(kb, ds, attempt, maxRetries, p);
    DeleteDataSourceRetried(kb, ds, attempt, maxRetries, p);
    RetainPolicyCalls(kb, ds, q);
    HeadCounts(call, Issued(q, policy.provider), VectorStoreRetryDelay);
    FilterAppend([call] + Issued(q, policy.provider) + [Sleep(VectorStoreRetryDelay)], Issued(resumed, r.provider), IsDsDelete);
  }

  /** Putting one retried failure, with what followed it before the retry,
      in front of the calls of the remaining attempts. */
  lemma RetriedFirst(D: seq<Call>, Dn: seq<Call>, call: Call)
    requires call.DsDelete? && VectorStoreFailure(call.answer) && D == [call] + Dn
    requires |Dn| > 0 && RetriedOnVectorStore(Dn)
    ensures RetriedOnVectorStore(D)
  {
    forall j | 0 < j < |D| - 1
      ensures D[j].DsDelete? && VectorStoreFailure(D[j].answer)
    {
      assert D[j] == Dn[j - 1];
    }
  }

  /** The loop deletes this data source and nothing else. */
  lemma {:induction false} DeleteDataSourceCalls(kb: string, ds: string, attempt: nat, maxRetries: int, p: Provider)
    ensures var r := DeleteDataSourceRun(kb, ds, attempt, maxRetries, p);
      var calls := Issued(p, r.provider);
      && DsTargets(calls) == Repeat(ds, |Filter(calls, IsDsDelete)|)
      && KbTargets(calls) == [] && Filter(calls, IsKbDelete) == []
    decreases maxRetries - attempt
  {
    var r := DeleteDataSourceRun(kb, ds, attempt, maxRetries, p);
    if attempt >= maxRetries {
      IssuedExactly(p, r.provider, []);
    } else {
      var answer := p.NextDelete();
      var call := DsDelete(kb, ds, answer);
      if VectorStoreFailure(answer) && attempt < maxRetries - 1 {
        var q := p.AfterDelete().Logged(call);
        var policy := RetainPolicyRun(kb, ds, q);
        var resumed := policy.provider.Logged(Sleep(VectorStoreRetryDelay));
        var rest := Issued(resumed, r.provider);
        DeleteDataSourceRetried(kb, ds, attempt, maxRetries, p);
        DeleteDataSourceCalls(kb, ds, attempt + 1, maxRetries, resumed);
        RetainPolicyCalls(kb, ds, q);
        var head := [call] + Issued(q, policy.provider) + [Sleep(VectorStoreRetryDelay)];
        HeadCounts(call, Issued(q, policy.provider), VectorStoreRetryDelay);
        FilterAppend(head, rest, IsDsDelete);
        FilterAppend(head, rest, IsKbDelete);
        TargetsAppend(head, rest);
      } else {
        DeleteDataSourceStopped(kb, ds, attempt, maxRetries, p);
        assert Filter([call], IsDsDelete) == [call];
        assert DsTargets([call]) == [ds];
      }
    }
  }

  /** Exactly one policy read before each retry. */
  lemma {:induction false} DeleteDataSourceReads(kb: string, ds: string, attempt: nat, maxRetries: int, p: Provider)
    ensures var r := DeleteDataSourceRun(kb, ds, attempt, maxRetries, p);
      var calls := Issued(p, r.provider);
      var D := Filter(calls, IsDsDelete);
      |D| > 0 ==> |Filter(calls, IsDsGet)| == |D| - 1
    decreases maxRetries - attempt
  {
    var r := DeleteDataSourceRun(kb, ds, attempt, maxRetries, p);
    if attempt < maxRetries {
      var answer := p.NextDelete();
      var call := DsDelete(kb, ds, answer);
      if VectorStoreFailure(answer) && attempt < maxRetries - 1 {
        var q := p.AfterDelete().Logged(call);
        var policy := RetainPolicyRun(kb, ds, q);
        var resumed := policy.provider.Logged(Sleep(VectorStoreRetryDelay));
        var rest := Issued(resumed, r.provider);
        DeleteDataSourceRetried(kb, ds, attempt, maxRetries, p);
        DeleteDataSourceReads(kb, ds, attempt + 1, maxRetries, resumed);
        DeleteDataSourceCount(kb, ds, attempt + 1, maxRetries, resumed);
        RetainPolicyCalls(kb, ds, q);
        var head := [call] + Issued(q, policy.provider) + [Sleep(VectorStoreRetryDelay)];
        HeadCounts(call, Issued(q, policy.provider), VectorStoreRetryDelay);
        FilterAppend(head, rest, IsDsDelete);
        FilterAppend(head, rest, IsDsGet);
      } else {
        DeleteDataSourceStopped(kb, ds, attempt, maxRetries, p);
        assert Filter([call], IsDsGet) == [] && Filter([call], IsDsDelete) == [call];
      }
    }
  }

  /** What one retry step contributes: the failed delete, the policy update
      and the pause. */
  lemma HeadCounts(call: Call, policy: seq<Call>, delay: nat)
    requires call.DsDelete?
    requires |Filter(policy, IsDsGet)| == 1 && Filter(policy, IsDsDelete) == [] && Filter(policy, IsKbDelete) == []
    requires DsTargets(policy) == [] && KbTargets(policy) == []
    ensures var head := [call] + policy + [Sleep(delay)];
      && Filter(head, IsDsDelete) == [call] && |Filter(head, IsDsGet)| == 1 && Filter(head, IsKbDelete) == []
      && DsTargets(head) == [call.ds] && KbTargets(head) == []
  {
    FilterAppend([call] + policy, [Sleep(delay)], IsDsDelete);
    FilterAppend([call], policy, IsDsDelete);
    FilterAppend([call] + policy, [Sleep(delay)], IsDsGet);
    FilterAppend([call], policy, IsDsGet);
    FilterAppend([call] + policy, [Sleep(delay)], IsKbDelete);
    FilterAppend([call], policy, IsKbDelete);
    TargetsAppend([call] + policy, [Sleep(delay)]);
    TargetsAppend([call], policy);
  }

  /** The result of the policy update is ignored: whatever the reads and
      updates answer, the same delete calls are made with the same outcome. */
  lemma {:induction false} DeleteDataSourceIgnoresPolicy(kb: string, ds: string, attempt: nat, maxRetries: int, p: Provider, q: Provider)
    requires p.script.deletes == q.script.deletes && p.deleted == q.deleted
    ensures var r, s := DeleteDataSourceRun(kb, ds, attempt, maxRetries, p), DeleteDataSourceRun(kb, ds, attempt, maxRetries, q);
      r.value == s.value && Filter(Issued(p, r.provider), IsDsDelete) == Filter(Issued(q, s.provider), IsDsDelete)
    decreases maxRetries - attempt
  {
    var r, s := DeleteDataSourceRun(kb, ds, attempt, maxRetries, p), DeleteDataSourceRun(kb, ds, attempt, maxRetries, q);
    if attempt >= maxRetries {
      IssuedExactly(p, r.provider, []);
      IssuedExactly(q, s.provider, []);
    } else {
      var answer := p.NextDelete();
      var call := DsDelete(kb, ds, answer);
      if VectorStoreFailure(answer) && attempt < maxRetries - 1 {
        var p1 := p.AfterDelete().Logged(call);
        var q1 := q.AfterDelete().Logged(call);
        var policyP := RetainPolicyRun(kb, ds, p1);
        var policyQ := RetainPolicyRun(kb, ds, q1);
        var resumedP := policyP.provider.Logged(Sleep(VectorStoreRetryDelay));
        var resumedQ := policyQ.provider.Logged(Sleep(VectorStoreRetryDelay));
        DeleteDataSourceRetried(kb, ds, attempt, maxRetries, p);
        DeleteDataSourceRetried(kb, ds, attempt, maxRetries, q);
        DeleteDataSourceIgnoresPolicy(kb, ds, attempt + 1, maxRetries, resumedP, resumedQ);
        RetainPolicyCalls(kb, ds, p1);
        RetainPolicyCalls(kb, ds, q1);
        HeadCounts(call, Issued(p1, policyP.provider), VectorStoreRetryDelay);
        HeadCounts(call, Issued(q1, policyQ.provider), VectorStoreRetryDelay);
        FilterAppend([call] + Issued(p1, policyP.provider) + [Sleep(VectorStoreRetryDelay)], Issued(resumedP, r.provider), IsDsDelete);
        FilterAppend([call] + Issued(q1, policyQ.provider) + [Sleep(VectorStoreRetryDelay)], Issued(resumedQ, s.provider), IsDsDelete);
      } else {
        DeleteDataSourceStopped(kb, ds, attempt, maxRetries, p);
        DeleteDataSourceStopped(kb, ds, attempt, maxRetries, q);
      }
    }
  }

  // ---------------------------------------------------------------------------
  // Listings

  /** A knowledge base is listed exactly when the listing ran to its end and
      one of its pages held it; the listing only reads. */
  lemma ListedIffOnSomePage(p: Provider, kb: KbSummary)
    ensures var r := ListKnowledgeBasesRun(p); var l := p.NextKbListing();
      var calls := Issued(p, r.provider);
      && (kb in r.value <==> l.stop.None? && exists i :: 0 <= i < |l.pages| && kb in l.pages[i])
      && |calls| == Requests(l) && NoMutation(calls)
  {
    var l := p.NextKbListing();
    IssuedExactly(p, ListKnowledgeBasesRun(p).provider, Repeat(KbPage, Requests(l)));
    FlattenHolds(l.pages, kb);
  }

  // ---------------------------------------------------------------------------
  // delete_knowledge_base

  /** The data-source loop deletes the listed data sources in order, each one
      one to three times, and no knowledge base. */
  lemma {:induction false} DataSourcePhaseCalls(kb: string, dss: seq<DsSummary>, i: nat, p: Provider)
    requires i <= |dss|
    ensures var calls := Issued(p, DataSourcePhase(kb, dss, i, p));
      && Filter(calls, IsKbDelete) == [] && KbTargets(calls) == []
      && AttemptedInOrder(DsTargets(calls), DsIds(dss[i..]), DefaultMaxRetries)
    decreases |dss| - i
  {
    var r := DataSourcePhase(kb, dss, i, p);
    if i == |dss| {
      IssuedExactly(p, r, []);
      assert dss[i..] == [];
      AttemptedNothing(DefaultMaxRetries);
    } else {
      var one := DeleteDataSourceRun(kb, dss[i].id, 0, DefaultMaxRetries, p);
      var first, rest := Issued(p, one.provider), Issued(one.provider, r);
      IssuedChain(p, one.provider, r);
      DataSourcePhaseCalls(kb, dss, i + 1, one.provider);
      DeleteDataSourceCount(kb, dss[i].id, 0, DefaultMaxRetries, p);
      DeleteDataSourceCalls(kb, dss[i].id, 0, DefaultMaxRetries, p);
      FilterAppend(first, rest, IsKbDelete);
      TargetsAppend(first, rest);
      assert dss[i..][1..] == dss[i + 1..];
      var n := |Filter(first, IsDsDelete)|;
      AttemptedInOrderCons(dss[i].id, n, DsTargets(rest), DsIds(dss[i + 1..]), DefaultMaxRetries);
    }
  }

  /** Everything `delete_knowledge_base` does before its first knowledge-base
      delete call deletes the listed data sources in order and no knowledge
      base. */
  lemma DataSourceStage(kb: string, p: Provider)
    ensures var stage := Issued(p, Settled(kb, p));
      && Filter(stage, IsKbDelete) == [] && KbTargets(stage) == []
      && AttemptedInOrder(DsTargets(stage), DsIds(ListDataSourcesRun(kb, p).value), DefaultMaxRetries)
  {
    var listed := ListDataSourcesRun(kb, p);
    var phase := DataSourcePhase(kb, listed.value, 0, listed.provider);
    var settled := Settled(kb, p);
    var settle: seq<Call> := if listed.value != [] then [Sleep(SettleDelay)] else [];
    var l := p.NextDsListing();
    IssuedExactly(p, listed.provider, Repeat(DsPage(kb), Requests(l)));
    IssuedExactly(phase, settled, settle);
    IssuedChain(p, listed.provider, phase);
    IssuedChain(p, phase, settled);
    DataSourcePhaseCalls(kb, listed.value, 0, listed.provider);
    assert listed.value[0..] == listed.value;
    Padded(Issued(p, listed.provider), Issued(listed.provider, phase), settle);
  }

  /** A dry run touches nothing. Otherwise every data-source delete call comes
      before the first knowledge-base delete call, and the listed data sources
      are each tried in listed order. */
  lemma DeleteKnowledgeBaseOrder(dryRun: bool, kb: string, maxRetries: int, p: Provider)
    ensures var r := DeleteKnowledgeBaseRun(dryRun, kb, maxRetries, p);
      var calls := Issued(p, r.provider);
      && (dryRun ==> r.value && r.provider == p)
      && (!dryRun ==>
            && DataSourcesFirst(calls)
            && AttemptedInOrder(DsTargets(calls), DsIds(ListDataSourcesRun(kb, p).value), DefaultMaxRetries))
  {
    if !dryRun {
      var settled := Settled(kb, p);
      var r := DeleteKnowledgeBaseRun(dryRun, kb, maxRetries, p);
      var stage, removal := Issued(p, settled), Issued(settled, r.provider);
      IssuedChain(p, settled, r.provider);
      DataSourceStage(kb, p);
      KbDeleteAttemptsTargets(kb, 0, maxRetries, KbRetryDelay, settled);
      DataSourcesFirstAppend(stage, removal);
      TargetsAppend(stage, removal);
    }
  }

  /** Outside a dry run, the knowledge-base delete calls are those of the
      delete loop that follows the data-source stage. */
  lemma KbDeletesAfterStage(kb: string, maxRetries: int, p: Provider)
    ensures var settled := Settled(kb, p);
      var r := DeleteKnowledgeBaseRun(false, kb, maxRetries, p);
      && r == KbDeleteAttempts(kb, 0, maxRetries, KbRetryDelay, settled)
      && Filter(Issued(p, r.provider), IsKbDelete) == Filter(Issued(settled, r.provider), IsKbDelete)
  {
    var settled := Settled(kb, p);
    var r := DeleteKnowledgeBaseRun(false, kb, maxRetries, p);
    IssuedChain(p, settled, r.provider);
    DataSourceStage(kb, p);
    FilterAppend(Issued(p, settled), Issued(settled, r.provider), IsKbDelete);
  }

  /** Outside a dry run the knowledge base gets at least one and at most
      `maxRetries` delete calls, whatever happened to its data sources, all
      of them when it fails, and the result is true exactly when the last of
      them succeeded. */
  lemma DeleteKnowledgeBaseOutcome(dryRun: bool, kb: string, maxRetries: int, p: Provider)
    requires !dryRun
    ensures var r := DeleteKnowledgeBaseRun(dryRun, kb, maxRetries, p);
      var K := Filter(Issued(p, r.provider), IsKbDelete);
      && (maxRetries >= 1 ==> 1 <= |K| <= maxRetries)
      && (maxRetries < 1 ==> K == [])
      && (!r.value && maxRetries >= 1 ==> |K| == maxRetries)
      && (r.value <==> |K| > 0 && K[|K| - 1].answer.Ok?)
      && (forall j :: 0 <= j < |K| - 1 ==> K[j].answer.Fail?)
  {
    var settled := Settled(kb, p);
    KbDeletesAfterStage(kb, maxRetries, p);
    KbDeleteAttemptsCount(kb, 0, maxRetries, KbRetryDelay, settled);
    KbDeleteAttemptsOutcome(kb, 0, maxRetries, KbRetryDelay, settled);
    if maxRetries < 1 {
      assert Issued(settled, settled) == [];
    }
  }

  /** Outside a dry run, with the default number of attempts, one to three
      delete calls for this knowledge base and for no other. */
  lemma DeleteKnowledgeBaseTargets(kb: string, p: Provider) returns (n: nat)
    ensures 1 <= n <= DefaultMaxRetries
    ensures var r := DeleteKnowledgeBaseRun(false, kb, DefaultMaxRetries, p);
      KbTargets(Issued(p, r.provider)) == Repeat(kb, n)
  {
    var settled := Settled(kb, p);
    var r := DeleteKnowledgeBaseRun(false, kb, DefaultMaxRetries, p);
    IssuedChain(p, settled, r.provider);
    KbDeletesAfterStage(kb, DefaultMaxRetries, p);
    DataSourceStage(kb, p);
    KbDeleteAttemptsTargets(kb, 0, DefaultMaxRetries, KbRetryDelay, settled);
    KbDeleteAttemptsCount(kb, 0, DefaultMaxRetries, KbRetryDelay, settled);
    TargetsAppend(Issued(p, settled), Issued(settled, r.provider));
    n := |Filter(Issued(settled, r.provider), IsKbDelete)|;
  }

  // ---------------------------------------------------------------------------
  // delete_all_knowledge_bases

  /** One pass of the loop over knowledge bases, unfolded. */
  lemma DeleteEachStep(dryRun: bool, kbs: seq<KbSummary>, i: nat, p: Provider)
    requires i < |kbs|
    ensures var one := DeleteKnowledgeBaseRun(dryRun, kbs[i].id, DefaultMaxRetries, p);
      var paused := if !dryRun && i + 1 < |kbs| then one.provider.Logged(Sleep(BetweenKbsDelay)) else one.provider;
      var rest := DeleteEachRun(dryRun, kbs, i + 1, paused);
      DeleteEachRun(dryRun, kbs, i, p) == Run(Count(rest.value, one.value), rest.provider)
  {
  }

  /** Every knowledge base is counted once, as a success or as a failure; a
      dry run counts them all as successes and makes no call at all. */
  lemma {:induction false} DeleteEachTally(dryRun: bool, kbs: seq<KbSummary>, i: nat, p: Provider)
    requires i <= |kbs|
    ensures var r := DeleteEachRun(dryRun, kbs, i, p);
      && r.value.succeeded + r.value.failed == |kbs| - i
      && (dryRun ==> r.value == Tally(|kbs| - i, 0) && r.provider == p)
    decreases |kbs| - i
  {
    if i < |kbs| {
      DeleteEachStep(dryRun, kbs, i, p);
      var one := DeleteKnowledgeBaseRun(dryRun, kbs[i].id, DefaultMaxRetries, p);
      var paused := if !dryRun && i + 1 < |kbs| then one.provider.Logged(Sleep(BetweenKbsDelay)) else one.provider;
      DeleteEachTally(dryRun, kbs, i + 1, paused);
    }
  }

  /** The calls of one pass of the loop over knowledge bases: those of the
      knowledge base, the pause, then those of the rest of the loop. */
  lemma DeleteEachIssued(dryRun: bool, kbs: seq<KbSummary>, i: nat, p: Provider)
    requires i < |kbs|
    ensures var one := DeleteKnowledgeBaseRun(dryRun, kbs[i].id, DefaultMaxRetries, p);
      var pause: seq<Call> := if !dryRun && i + 1 < |kbs| then [Sleep(BetweenKbsDelay)] else [];
      var paused := one.provider.LoggedAll(pause);
      var r := DeleteEachRun(dryRun, kbs, i, p);
      && r == DeleteNextRun(dryRun, kbs, i, p)
      && DeleteEachRun(dryRun, kbs, i + 1, paused).provider == r.provider
      && Issued(p, r.provider) == Issued(p, one.provider) + pause + Issued(paused, r.provider)
  {
    DeleteEachStep(dryRun, kbs, i, p);
    var one := DeleteKnowledgeBaseRun(dryRun, kbs[i].id, DefaultMaxRetries, p);
    var pause: seq<Call> := if !dryRun && i + 1 < |kbs| then [Sleep(BetweenKbsDelay)] else [];
    var paused := one.provider.LoggedAll(pause);
    assert paused == (if !dryRun && i + 1 < |kbs| then one.provider.Logged(Sleep(BetweenKbsDelay)) else one.provider);
    var r := DeleteEachRun(dryRun, kbs, i, p);
    IssuedExactly(one.provider, paused, pause);
    IssuedChain(p, one.provider, paused);
    IssuedChain(p, paused, r.provider);
  }

  /** Outside a dry run the knowledge bases are deleted in listed order, each
      one tried one to three times. */
  lemma {:induction false} DeleteEachOrder(dryRun: bool, kbs: seq<KbSummary>, i: nat, p: Provider)
    requires i <= |kbs| && !dryRun
    ensures var r := DeleteEachRun(dryRun, kbs, i, p);
      AttemptedInOrder(KbTargets(Issued(p, r.provider)), KbIds(kbs[i..]), DefaultMaxRetries)
    decreases |kbs| - i
  {
    var r := DeleteEachRun(dryRun, kbs, i, p);
    if i == |kbs| {
      IssuedExactly(p, r.provider, []);
      assert kbs[i..] == [];
      AttemptedNothing(DefaultMaxRetries);
    } else {
      var one := DeleteKnowledgeBaseRun(dryRun, kbs[i].id, DefaultMaxRetries, p);
      var pause: seq<Call> := if i + 1 < |kbs| then [Sleep(BetweenKbsDelay)] else [];
      var paused := one.provider.LoggedAll(pause);
      DeleteEachIssued(dryRun, kbs, i, p);
      var rest := Issued(paused, r.provider);
      DeleteEachOrder(dryRun, kbs, i + 1, paused);
      var n := DeleteKnowledgeBaseTargets(kbs[i].id, p);
      Paused(Issued(p, one.provider), pause, rest);
      assert kbs[i..][1..] == kbs[i + 1..];
      AttemptedInOrderCons(kbs[i].id, n, KbTargets(rest), KbIds(kbs[i + 1..]), DefaultMaxRetries);
    }
  }

  /** The confirmation gate. Nothing listed: no prompt and nothing deleted.
      Outside a dry run and without `confirm`, the prompt is asked and any
      reply but the exact word DELETE cancels before anything is deleted.
      A dry run deletes nothing. Otherwise every listed knowledge base is
      counted once. */
  lemma DeleteAllGate(dryRun: bool, confirm: bool, reply: string, p: Provider)
    ensures var r := DeleteAllRun(dryRun, confirm, reply, p);
      var listed := ListKnowledgeBasesRun(p);
      var calls, listing := Issued(p, r.provider), Issued(p, listed.provider);
      var asked := listed.value != [] && !dryRun && !confirm;
      && (r.value == NothingFound <==> listed.value == [])
      && (r.value == Cancelled <==> asked && reply != Confirmation)
      && (r.value.Completed? <==> listed.value != [] && (dryRun || confirm || reply == Confirmation))
      && (r.value.Completed? ==> r.value.succeeded + r.value.failed == |listed.value|)
      && |calls| >= |listing| && calls[..|listing|] == listing
      && (asked ==> calls[|listing|] == Prompt)
      && (listed.value == [] || dryRun ==> Prompt !in calls)
      && (!r.value.Completed? || dryRun ==> NoMutation(calls))
  {
    var listed := ListKnowledgeBasesRun(p);
    var r := DeleteAllRun(dryRun, confirm, reply, p);
    var listing := Repeat(KbPage, Requests(p.NextKbListing()));
    IssuedExactly(p, listed.provider, listing);
    if listed.value == [] {
      IssuedExactly(p, r.provider, listing);
    } else {
      var prompt: seq<Call> := if !dryRun && !confirm then [Prompt] else [];
      var asked := listed.provider.LoggedAll(prompt);
      assert asked == (if !dryRun && !confirm then listed.provider.Logged(Prompt) else listed.provider);
      IssuedExactly(p, asked, listing + prompt);
      if !dryRun && !confirm && reply != Confirmation {
        assert r.provider == asked;
      } else {
        DeleteEachTally(dryRun, listed.value, 0, asked);
        IssuedChain(p, asked, r.provider);
        var calls := Issued(p, r.provider);
        assert calls == listing + prompt + Issued(asked, r.provider);
        assert calls[..|listing|] == listing;
        if dryRun {
          assert r.provider == asked;
        }
      }
    }
  }

  // ---------------------------------------------------------------------------
  // The cleaner

  /** No reply in `q` is a timeout. */
  predicate NoTimeout<T>(q: seq<Reply<T>>)
  {
    q == [] || (q[0] != Fail(Timeout) && NoTimeout(q[1..]))
  }

  /** No listing in `q` ends in a timeout. */
  predicate NoListingTimeout<T>(q: seq<Listing<T>>)
  {
    q == [] || (q[0].stop != Some(Timeout) && NoListingTimeout(q[1..]))
  }

  /** The first cleaner catches only ClientError and arms no alarm, so no
      reply of its script is a timeout. */
  predicate NoTimeouts(s: Script)
  {
    && NoListingTimeout(s.kbListings) && NoListingTimeout(s.dsListings)
    && NoTimeout(s.fetches) && NoTimeout(s.updates) && NoTimeout(s.deletes)
  }

  /** `BedrockKBCleaner`: the dry-run flag and the client, whose trace is
      the history of the calls made so far. */
  class Cleaner {
    const dryRun: bool
    var client: Provider

    ghost predicate Valid()
      reads this
    {
      NoTimeouts(client.script)
    }

    constructor (dryRun: bool, client: Provider)
      requires NoTimeouts(client.script)
      ensures this.dryRun == dryRun && this.client == client
      ensures Valid()
    {
      this.dryRun := dryRun;
      this.client := client;
    }

    /** `list_knowledge_bases`: extend the result page by page. */
    method ListKnowledgeBases() returns (kbs: seq<KbSummary>)
      requires Valid()
      modifies this
      ensures Valid() && Run(kbs, client) == ListKnowledgeBasesRun(old(client))
    {
      var listing := client.NextKbListing();
      client := client.AfterKbListing();
      ghost var start := client;
      kbs := [];
      var k := 0;
      while k < |listing.pages|
        invariant 0 <= k <= |listing.pages|
        invariant kbs == Flatten(listing.pages[..k])
        invariant client == start.LoggedAll(Repeat(KbPage, k))
      {
        client := client.Logged(KbPage);
        RepeatSnoc(KbPage, k);
        assert listing.pages[..k + 1][..k] == listing.pages[..k];
        kbs := kbs + listing.pages[k];
        k := k + 1;
      }
      assert listing.pages[..k] == listing.pages;
      if listing.stop.Some? {
        client := client.Logged(KbPage);
        RepeatSnoc(KbPage, k);
        kbs := [];
      }
    }

    /** `list_data_sources`. */
    method ListDataSources(kb: string) returns (dss: seq<DsSummary>)
      requires Valid()
      modifies this
      ensures Valid() && Run(dss, client) == ListDataSourcesRun(kb, old(client))
    {
      var listing := client.NextDsListing();
      client := client.AfterDsListing();
      ghost var start := client;
      dss := [];
      var k := 0;
      while k < |listing.pages|
        invariant 0 <= k <= |listing.pages|
        invariant dss == Flatten(listing.pages[..k])
        invariant client == start.LoggedAll(Repeat(DsPage(kb), k))
      {
        client := client.Logged(DsPage(kb));
        RepeatSnoc(DsPage(kb), k);
        assert listing.pages[..k + 1][..k] == listing.pages[..k];
        dss := dss + listing.pages[k];
        k := k + 1;
      }
      assert listing.pages[..k] == listing.pages;
      if listing.stop.Some? {
        client := client.Logged(DsPage(kb));
        RepeatSnoc(DsPage(kb), k);
        dss := [];
      }
    }

    /** `update_data_source_deletion_policy`. */
    method UpdateDataSourceDeletionPolicy(kb: string, ds: string) returns (ok: bool)
      requires Valid()
      modifies this
      ensures Valid() && Run(ok, client) == RetainPolicyRun(kb, ds, old(client))
    {
      var got := client.NextFetch();
      client := client.AfterFetch().Logged(DsGet(kb, ds, got));
      if got.Fail? {
        return false;
      }
      var record := got.value;
      var answer := client.NextUpdate();
      client := client.AfterUpdate().Logged(DsUpdate(kb, ds, record.name, record.configuration, Retain, answer));
      ok := answer.Ok?;
    }

    /** `delete_data_source`. */
    method DeleteDataSource(kb: string, ds: string, maxRetries: int) returns (ok: bool)
      requires Valid()
      modifies this
      ensures Valid() && Run(ok, client) == DeleteDataSourceRun(kb, ds, 0, maxRetries, old(client))
    {
      ghost var all := DeleteDataSourceRun(kb, ds, 0, maxRetries, client);
      var attempt: nat := 0;
      while attempt < maxRetries
        invariant Valid() && DeleteDataSourceRun(kb, ds, attempt, maxRetries, client) == all
        decreases maxRetries - attempt
      {
        var answer := client.NextDelete();
        client := client.AfterDelete().Logged(DsDelete(kb, ds, answer));
        if answer.Ok? {
          return true;
        }
        if VectorStoreFailure(answer) && attempt < maxRetries - 1 {
          var updated := UpdateDataSourceDeletionPolicy(kb, ds);
          client := client.Logged(Sleep(VectorStoreRetryDelay));
          attempt := attempt + 1;
        } else {
          return false;
        }
      }
      return false;
    }

    /** The knowledge-base delete loop of `delete_knowledge_base`. */
    method DeleteKnowledgeBaseAttempts(kb: string, maxRetries: int) returns (ok: bool)
      requires Valid()
      modifies this
      ensures Valid() && Run(ok, client) == KbDeleteAttempts(kb, 0, maxRetries, KbRetryDelay, old(client))
    {
      ghost var all := KbDeleteAttempts(kb, 0, maxRetries, KbRetryDelay, client);
      var attempt: nat := 0;
      while attempt < maxRetries
        invariant Valid() && KbDeleteAttempts(kb, attempt, maxRetries, KbRetryDelay, client) == all
        decreases maxRetries - attempt
      {
        var answer := client.NextDelete();
        client := client.AfterDelete().Logged(KbDelete(kb, answer));
        if answer.Ok? {
          return true;
        }
        if attempt < maxRetries - 1 {
          client := client.Logged(Sleep(KbRetryDelay));
          attempt := attempt + 1;
        } else {
          return false;
        }
      }
      return false;
    }

    /** The data-source loop of `delete_knowledge_base`: a failed deletion
        does not stop it. */
    method DeleteDataSources(kb: string, dss: seq<DsSummary>)
      requires Valid()
      modifies this
      ensures Valid() && client == DataSourcePhase(kb, dss, 0, old(client))
    {
      ghost var all := DataSourcePhase(kb, dss, 0, client);
      var i := 0;
      while i < |dss|
        invariant 0 <= i <= |dss| && Valid() && DataSourcePhase(kb, dss, i, client) == all
      {
        var deleted := DeleteDataSource(kb, dss[i].id, DefaultMaxRetries);
        i := i + 1;
      }
    }

    /** `delete_knowledge_base`. */
    method DeleteKnowledgeBase(kb: string, maxRetries: int) returns (ok: bool)
      requires Valid()
      modifies this
      ensures Valid() && Run(ok, client) == DeleteKnowledgeBaseRun(dryRun, kb, maxRetries, old(client))
    {
      if dryRun {
        return true;
      }
      var dss := ListDataSources(kb);
      DeleteDataSources(kb, dss);
      if dss != [] {
        client := client.Logged(Sleep(SettleDelay));
      }
      ok := DeleteKnowledgeBaseAttempts(kb, maxRetries);
    }

    /** The loop of `delete_all_knowledge_bases` and its two counters. */
    method DeleteEach(kbs: seq<KbSummary>) returns (succeeded: nat, failed: nat)
      requires Valid()
      modifies this
      ensures Valid() && Run(Tally(succeeded, failed), client) == DeleteEachRun(dryRun, kbs, 0, old(client))
    {
      ghost var all := DeleteEachRun(dryRun, kbs, 0, client);
      succeeded, failed := 0, 0;
      var i := 0;
      while i < |kbs|
        invariant 0 <= i <= |kbs| && Valid()
        invariant var now := DeleteEachRun(dryRun, kbs, i, client);
          && succeeded + now.value.succeeded == all.value.succeeded
          && failed + now.value.failed == all.value.failed
          && now.provider == all.provider
      {
        DeleteEachStep(dryRun, kbs, i, client);
        var ok := DeleteKnowledgeBase(kbs[i].id, DefaultMaxRetries);
        if ok {
          succeeded := succeeded + 1;
        } else {
          failed := failed + 1;
        }
        if !dryRun && i + 1 < |kbs| {
          client := client.Logged(Sleep(BetweenKbsDelay));
        }
        i := i + 1;
      }
    }

    /** `delete_all_knowledge_bases(confirm)`; `reply` is what `input()`
        would return if the question is asked. */
    method DeleteAllKnowledgeBases(confirm: bool, reply: string) returns (summary: Summary)
      requires Valid()
      modifies this
      ensures Valid() && Run(summary, client) == DeleteAllRun(dryRun, confirm, reply, old(client))
    {
      var kbs := ListKnowledgeBases();
      if kbs == [] {
        return NothingFound;
      }
      if !dryRun && !confirm {
        client := client.Logged(Prompt);
        if reply != Confirmation {
          return Cancelled;
        }
      }
      var succeeded, failed := DeleteEach(kbs);
      summary := Completed(succeeded, failed);
    }
  }
}
