/** What both knowledge-base cleaners see of the Bedrock agent service.

    Every boto3 call is replaced by the next scripted reply of its kind, taken
    from the `Script` of a `Provider`; the calls a cleaner issues are recorded, with
    the reply each one got, as a sequence of `Call`s. The pieces of control
    logic that the two cleaners share word for word (collecting paginated
    listings, the RETAIN policy update, the knowledge-base delete retry loop)
    are specified here once. */
module ProviderModel {
  import opened Text

  datatype Option<T> = None | Some(value: T)

  /** How a call can fail: botocore's ClientError, with the `Code` and
      `Message` of its error response, or the TimeoutError raised by the
      alarm the second cleaner arms around each call. */
  datatype Failure = ClientError(code: string, message: string) | Timeout

  datatype Reply<T> = Ok(value: T) | Fail(failure: Failure)

  /** `str(e)` for a ClientError raised by an operation: botocore puts the
      error code and the operation name in front of the message. */
  function ErrorText(code: string, operation: string, message: string): string
  {
    "An error occurred (" + code + ") when calling the " + operation + " operation: " + message
  }

  /** The part of a `get_data_source` answer that the policy update re-sends;
      the configuration is carried as an uninterpreted string. */
  datatype DataSource = DataSource(name: string, configuration: string)

  datatype KbSummary = KbSummary(id: string, name: string)

  datatype DsSummary = DsSummary(id: string, name: string)

  /** What a paginator yields: its pages, and the failure that ended it
      before the last page, if any. */
  datatype Listing<T> = Listing(pages: seq<seq<T>>, stop: Option<Failure>)

  /** One entry of the call log. Provider calls carry the reply they got;
      `Sleep` records a `time.sleep` and `Prompt` the confirmation question. */
  datatype Call =
    | KbPage
    | DsPage(kb: string)
    | DsGet(kb: string, ds: string, got: Reply<DataSource>)
    | DsUpdate(kb: string, ds: string, name: string, configuration: string, policy: string, answer: Reply<()>)
    | DsDelete(kb: string, ds: string, answer: Reply<()>)
    | KbDelete(kb: string, answer: Reply<()>)
    | Sleep(millis: nat)
    | Prompt

  predicate IsDsGet(c: Call) { c.DsGet? }
  predicate IsDsUpdate(c: Call) { c.DsUpdate? }
  predicate IsDsDelete(c: Call) { c.DsDelete? }
  predicate IsKbDelete(c: Call) { c.KbDelete? }
  predicate IsPrompt(c: Call) { c.Prompt? }

  /** The calls that change something on the provider's side. */
  predicate IsMutating(c: Call) { c.DsUpdate? || c.DsDelete? || c.KbDelete? }

  ghost predicate NoMutation(calls: seq<Call>)
  {
    forall i :: 0 <= i < |calls| ==> !IsMutating(calls[i])
  }

  /** The reply a call gets once its script has run out. */
  const Exhausted: Failure := ClientError("ScriptExhausted", "no scripted reply left")

  /** The `n`th entry of `q`, or `default` once `q` has run out. */
  function At<T>(q: seq<T>, n: nat, default: T): T
  {
    if n < |q| then q[n] else default
  }

  /** The scripted replies, one sequence per kind of call, given in order. */
  datatype Script = Script(
    kbListings: seq<Listing<KbSummary>>,
    dsListings: seq<Listing<DsSummary>>,
    fetches: seq<Reply<DataSource>>,
    updates: seq<Reply<()>>,
    deletes: seq<Reply<()>>)

  /** The client as the cleaner sees it: its script, how many replies of
      each kind it has given so far, and the trace of everything the
      cleaner has done through it, pauses and the prompt included. */
  datatype Provider = Provider(
    script: Script,
    kbListed: nat, dsListed: nat, fetched: nat, updated: nat, deleted: nat,
    trace: seq<Call>)
  {
    function NextKbListing(): Listing<KbSummary> { At(script.kbListings, kbListed, Listing([], Some(Exhausted))) }
    function AfterKbListing(): Provider { this.(kbListed := kbListed + 1) }
    function NextDsListing(): Listing<DsSummary> { At(script.dsListings, dsListed, Listing([], Some(Exhausted))) }
    function AfterDsListing(): Provider { this.(dsListed := dsListed + 1) }
    function NextFetch(): Reply<DataSource> { At(script.fetches, fetched, Fail(Exhausted)) }
    function AfterFetch(): Provider { this.(fetched := fetched + 1) }
    function NextUpdate(): Reply<()> { At(script.updates, updated, Fail(Exhausted)) }
    function AfterUpdate(): Provider { this.(updated := updated + 1) }
    function NextDelete(): Reply<()> { At(script.deletes, deleted, Fail(Exhausted)) }
    function AfterDelete(): Provider { this.(deleted := deleted + 1) }

    function Logged(c: Call): Provider { this.(trace := trace + [c]) }
    function LoggedAll(cs: seq<Call>): Provider { this.(trace := trace + cs) }
  }

  /** The outcome of running one operation against the script: its result,
      and the client afterwards. */
  datatype Run<T> = Run(value: T, provider: Provider)

  /** `q` is `p` after some more calls: the same script, the trace extended. */
  predicate Follows(p: Provider, q: Provider)
  {
    p.script == q.script && p.trace <= q.trace
  }

  /** The calls made on the way from `p` to `q`, in order. */
  function Issued(p: Provider, q: Provider): seq<Call>
  {
    if |p.trace| <= |q.trace| then q.trace[|p.trace|..] else []
  }

  lemma IssuedExactly(p: Provider, q: Provider, cs: seq<Call>)
    requires q.trace == p.trace + cs
    ensures Issued(p, q) == cs && p.trace <= q.trace
  {
  }

  /** What is issued in two stretches, one after the other. */
  lemma IssuedChain(p: Provider, q: Provider, r: Provider)
    requires p.trace <= q.trace && q.trace <= r.trace
    ensures p.trace <= r.trace
    ensures Issued(p, r) == Issued(p, q) + Issued(q, r)
  {
    assert r.trace[|p.trace|..] == r.trace[|p.trace|..|q.trace|] + r.trace[|q.trace|..];
  }

  datatype Tally = Tally(succeeded: nat, failed: nat)

  // ---------------------------------------------------------------------------
  // Sequences

  function Filter<T>(s: seq<T>, keep: T -> bool): (r: seq<T>)
    ensures |r| <= |s|
    ensures forall i :: 0 <= i < |r| ==> keep(r[i])
  {
    if s == [] then [] else (if keep(s[0]) then [s[0]] else []) + Filter(s[1..], keep)
  }

  lemma {:induction false} FilterAppend<T>(a: seq<T>, b: seq<T>, keep: T -> bool)
    ensures Filter(a + b, keep) == Filter(a, keep) + Filter(b, keep)
    decreases |a|
  {
    if a == [] {
      assert a + b == b;
    } else {
      assert (a + b)[0] == a[0];
      assert (a + b)[1..] == a[1..] + b;
      FilterAppend(a[1..], b, keep);
    }
  }

  lemma {:induction false} FilterNone<T>(s: seq<T>, keep: T -> bool)
    requires forall i :: 0 <= i < |s| ==> !keep(s[i])
    ensures Filter(s, keep) == []
    decreases |s|
  {
    if s != [] {
      FilterNone(s[1..], keep);
    }
  }

  /** Nothing is kept only when no element qualifies. */
  lemma {:induction false} FilterEmpty<T>(s: seq<T>, keep: T -> bool)
    requires Filter(s, keep) == []
    ensures forall i :: 0 <= i < |s| ==> !keep(s[i])
    decreases |s|
  {
    if s != [] {
      FilterEmpty(s[1..], keep);
      assert forall i :: 1 <= i < |s| ==> s[i] == s[1..][i - 1];
    }
  }

  function Repeat<T>(x: T, n: nat): (r: seq<T>)
    ensures |r| == n
    ensures forall i :: 0 <= i < n ==> r[i] == x
  {
    if n == 0 then [] else [x] + Repeat(x, n - 1)
  }

  lemma RepeatSnoc<T>(x: T, n: nat)
    ensures Repeat(x, n + 1) == Repeat(x, n) + [x]
  {
  }

  /** Each id repeated as many times as its count says, in order. */
  function Spread(ids: seq<string>, counts: seq<nat>): seq<string>
    requires |counts| == |ids|
  {
    if ids == [] then [] else Repeat(ids[0], counts[0]) + Spread(ids[1..], counts[1..])
  }

  /** `targets` is `ids` in order, each id tried at least once and at most
      `limit` times in a row. */
  ghost predicate AttemptedInOrder(targets: seq<string>, ids: seq<string>, limit: nat)
  {
    exists counts: seq<nat> :: |counts| == |ids|
      && (forall k :: 0 <= k < |counts| ==> 1 <= counts[k] <= limit)
      && targets == Spread(ids, counts)
  }

  lemma AttemptedInOrderCons(id: string, n: nat, targets: seq<string>, ids: seq<string>, limit: nat)
    requires 1 <= n <= limit
    requires AttemptedInOrder(targets, ids, limit)
    ensures AttemptedInOrder(Repeat(id, n) + targets, [id] + ids, limit)
  {
    var counts: seq<nat> :| |counts| == |ids|
      && (forall k :: 0 <= k < |counts| ==> 1 <= counts[k] <= limit)
      && targets == Spread(ids, counts);
    var all: seq<nat> := [n] + counts;
    assert ([id] + ids)[1..] == ids && all[1..] == counts;
    assert Spread([id] + ids, all) == Repeat(id, n) + targets;
  }

  lemma AttemptedNothing(limit: nat)
    ensures AttemptedInOrder([], [], limit)
  {
    assert Spread([], []) == [];
  }

  /** The ids of the data sources named by delete calls, in order. */
  function DsTargets(calls: seq<Call>): seq<string>
  {
    if calls == [] then []
    else (if calls[0].DsDelete? then [calls[0].ds] else []) + DsTargets(calls[1..])
  }

  /** The ids of the knowledge bases named by delete calls, in order. */
  function KbTargets(calls: seq<Call>): seq<string>
  {
    if calls == [] then []
    else (if calls[0].KbDelete? then [calls[0].kb] else []) + KbTargets(calls[1..])
  }

  lemma {:induction false} TargetsAppend(a: seq<Call>, b: seq<Call>)
    ensures DsTargets(a + b) == DsTargets(a) + DsTargets(b)
    ensures KbTargets(a + b) == KbTargets(a) + KbTargets(b)
    decreases |a|
  {
    if a == [] {
      assert a + b == b;
    } else {
      assert (a + b)[0] == a[0];
      assert (a + b)[1..] == a[1..] + b;
      TargetsAppend(a[1..], b);
    }
  }

  lemma {:induction false} TargetsOfNonDeleting(calls: seq<Call>)
    requires forall i :: 0 <= i < |calls| ==> !calls[i].DsDelete? && !calls[i].KbDelete?
    ensures DsTargets(calls) == [] && KbTargets(calls) == []
    decreases |calls|
  {
    if calls != [] {
      TargetsOfNonDeleting(calls[1..]);
    }
  }

  /** Calls that delete nothing, around a block of calls, change neither
      which deletions are made nor their order. */
  lemma Padded(a: seq<Call>, b: seq<Call>, c: seq<Call>)
    requires forall i :: 0 <= i < |a| ==> !a[i].DsDelete? && !a[i].KbDelete?
    requires forall i :: 0 <= i < |c| ==> !c[i].DsDelete? && !c[i].KbDelete?
    ensures Filter(a + b + c, IsDsDelete) == Filter(b, IsDsDelete)
    ensures Filter(a + b + c, IsKbDelete) == Filter(b, IsKbDelete)
    ensures DsTargets(a + b + c) == DsTargets(b) && KbTargets(a + b + c) == KbTargets(b)
  {
    FilterNone(a, IsDsDelete);
    FilterNone(c, IsDsDelete);
    FilterNone(a, IsKbDelete);
    FilterNone(c, IsKbDelete);
    TargetsOfNonDeleting(a);
    TargetsOfNonDeleting(c);
    FilterAppend(a, b, IsDsDelete);
    FilterAppend(a + b, c, IsDsDelete);
    FilterAppend(a, b, IsKbDelete);
    FilterAppend(a + b, c, IsKbDelete);
    TargetsAppend(a, b);
    TargetsAppend(a + b, c);
  }

  /** A pause between two blocks of calls adds no deletion. */
  lemma Paused(a: seq<Call>, pause: seq<Call>, b: seq<Call>)
    requires forall i :: 0 <= i < |pause| ==> !pause[i].DsDelete? && !pause[i].KbDelete?
    ensures DsTargets(a + pause + b) == DsTargets(a) + DsTargets(b)
    ensures KbTargets(a + pause + b) == KbTargets(a) + KbTargets(b)
  {
    TargetsOfNonDeleting(pause);
    TargetsAppend(a, pause);
    var front := a + pause;
    assert DsTargets(front) == DsTargets(a) && KbTargets(front) == KbTargets(a);
    TargetsAppend(front, b);
  }

  /** Every data-source delete call comes before every knowledge-base delete call. */
  ghost predicate DataSourcesFirst(calls: seq<Call>)
  {
    forall i, j :: 0 <= i < j < |calls| && calls[i].KbDelete? ==> !calls[j].DsDelete?
  }

  lemma DataSourcesFirstAppend(a: seq<Call>, b: seq<Call>)
    requires Filter(a, IsKbDelete) == [] && Filter(b, IsDsDelete) == []
    ensures DataSourcesFirst(a + b)
  {
    FilterEmpty(a, IsKbDelete);
    FilterEmpty(b, IsDsDelete);
  }

  // ---------------------------------------------------------------------------
  // Paginated listings: `items.extend(page.get(...))` for every page

  function Flatten<T>(pages: seq<seq<T>>): seq<T>
  {
    if pages == [] then [] else Flatten(pages[..|pages| - 1]) + pages[|pages| - 1]
  }

  lemma {:induction false} FlattenAppend<T>(a: seq<seq<T>>, b: seq<seq<T>>)
    ensures Flatten(a + b) == Flatten(a) + Flatten(b)
    decreases |b|
  {
    if b == [] {
      assert a + b == a;
    } else {
      var b' := b[..|b| - 1];
      assert (a + b)[..|a + b| - 1] == a + b';
      assert (a + b)[|a + b| - 1] == b[|b| - 1];
      FlattenAppend(a, b');
    }
  }

  /** An item was collected exactly when some page held it. */
  lemma {:induction false} FlattenHolds<T>(pages: seq<seq<T>>, x: T)
    ensures x in Flatten(pages) <==> exists i :: 0 <= i < |pages| && x in pages[i]
    decreases |pages|
  {
    if pages != [] {
      var init := pages[..|pages| - 1];
      FlattenHolds(init, x);
      assert forall i :: 0 <= i < |init| ==> init[i] == pages[i];
    }
  }

  /** What the listing methods return: every page's items in order, or
      nothing at all once the paginator failed, whatever it had yielded. */
  function Collected<T>(l: Listing<T>): seq<T>
  {
    if l.stop.None? then Flatten(l.pages) else []
  }

  /** The number of page requests a listing took: one per page, plus the
      request that failed. */
  function Requests<T>(l: Listing<T>): nat
  {
    |l.pages| + (if l.stop.Some? then 1 else 0)
  }

  // ---------------------------------------------------------------------------
  // The RETAIN policy update (update_data_source_deletion_policy)

  const Retain: string := "RETAIN"

  /** Read the data source, then write it back with the same name and
      configuration and the deletion policy RETAIN. Only the fetch and update
      replies are consumed. */
  function RetainPolicyRun(kb: string, ds: string, p: Provider): (r: Run<bool>)
    ensures Follows(p, r.provider)
    ensures r.provider.deleted == p.deleted && r.provider.kbListed == p.kbListed && r.provider.dsListed == p.dsListed
  {
    var got := p.NextFetch();
    var read := p.AfterFetch().Logged(DsGet(kb, ds, got));
    match got
    case Fail(_) => Run(false, read)
    case Ok(record) =>
      var answer := read.NextUpdate();
      Run(answer.Ok?, read.AfterUpdate().Logged(DsUpdate(kb, ds, record.name, record.configuration, Retain, answer)))
  }

  /** One read, then an update exactly when the read succeeded, re-sending the
      name and configuration that were read with the policy RETAIN; true
      exactly when both calls succeeded; nothing is deleted. */
  lemma RetainPolicyCalls(kb: string, ds: string, p: Provider)
    ensures var r := RetainPolicyRun(kb, ds, p);
      var calls := Issued(p, r.provider);
      && 1 <= |calls| <= 2 && calls[0] == DsGet(kb, ds, p.NextFetch())
      && (|calls| == 2 <==> p.NextFetch().Ok?)
      && (|calls| == 2 ==>
            var record := p.NextFetch().value;
            calls[1].DsUpdate? && calls[1] == DsUpdate(kb, ds, record.name, record.configuration, Retain, calls[1].answer))
      && (r.value <==> |calls| == 2 && calls[1].answer.Ok?)
      && |Filter(calls, IsDsGet)| == 1
      && Filter(calls, IsDsDelete) == [] && Filter(calls, IsKbDelete) == []
      && DsTargets(calls) == [] && KbTargets(calls) == []
  {
    var r := RetainPolicyRun(kb, ds, p);
    var got := p.NextFetch();
    var read := DsGet(kb, ds, got);
    if got.Fail? {
      IssuedExactly(p, r.provider, [read]);
    } else {
      var record := got.value;
      var update := DsUpdate(kb, ds, record.name, record.configuration, Retain, p.NextUpdate());
      assert r.provider.trace == p.trace + [read, update];
      IssuedExactly(p, r.provider, [read, update]);
      assert [read, update] == [read] + [update];
      FilterAppend([read], [update], IsDsGet);
      FilterAppend([read], [update], IsDsDelete);
      FilterAppend([read], [update], IsKbDelete);
    }
    TargetsOfNonDeleting(Issued(p, r.provider));
  }

  // ---------------------------------------------------------------------------
  // The knowledge-base delete loop, shared by both cleaners: any failure is
  // retried after `retryDelay` until the attempts run out.

  function KbDeleteAttempts(kb: string, attempt: nat, maxRetries: int, retryDelay: nat, p: Provider): (r: Run<bool>)
    ensures Follows(p, r.provider)
    decreases maxRetries - attempt
  {
    if attempt >= maxRetries then Run(false, p)
    else
      var answer := p.NextDelete();
      var q := p.AfterDelete().Logged(KbDelete(kb, answer));
      if answer.Ok? then Run(true, q)
      else if attempt < maxRetries - 1 then KbDeleteAttempts(kb, attempt + 1, maxRetries, retryDelay, q.Logged(Sleep(retryDelay)))
      else Run(false, q)
  }

  /** One failed attempt with another to come, unfolded: its calls are the
      delete call and the pause, then those of the remaining attempts. */
  lemma KbDeleteRetried(kb: string, attempt: nat, maxRetries: int, retryDelay: nat, p: Provider)
    requires attempt < maxRetries - 1 && p.NextDelete().Fail?
    ensures var q := p.AfterDelete().Logged(KbDelete(kb, p.NextDelete())).Logged(Sleep(retryDelay));
      var r := KbDeleteAttempts(kb, attempt, maxRetries, retryDelay, p);
      && r == KbDeleteAttempts(kb, attempt + 1, maxRetries, retryDelay, q)
      && Issued(p, r.provider) == [KbDelete(kb, p.NextDelete()), Sleep(retryDelay)] + Issued(q, r.provider)
  {
    var call := KbDelete(kb, p.NextDelete());
    var q := p.AfterDelete().Logged(call).Logged(Sleep(retryDelay));
    var r := KbDeleteAttempts(kb, attempt, maxRetries, retryDelay, p);
    IssuedExactly(p, q, [call, Sleep(retryDelay)]);
    IssuedChain(p, q, r.provider);
  }

  /** At most one delete call per remaining attempt, at least one when any
      attempt remains, and a failure is reported only once every attempt has
      been used. */
  lemma {:induction false} KbDeleteAttemptsCount(kb: string, attempt: nat, maxRetries: int, retryDelay: nat, p: Provider)
    ensures var r := KbDeleteAttempts(kb, attempt, maxRetries, retryDelay, p);
      var K := Filter(Issued(p, r.provider), IsKbDelete);
      && (attempt >= maxRetries ==> r.provider == p && !r.value)
      && (attempt < maxRetries ==> 1 <= |K| <= maxRetries - attempt)
      && (!r.value && attempt < maxRetries ==> |K| == maxRetries - attempt)
    decreases maxRetries - attempt
  {
    var r := KbDeleteAttempts(kb, attempt, maxRetries, retryDelay, p);
    if attempt < maxRetries {
      var call := KbDelete(kb, p.NextDelete());
      if p.NextDelete().Fail? && attempt < maxRetries - 1 {
        var q := p.AfterDelete().Logged(call).Logged(Sleep(retryDelay));
        KbDeleteRetried(kb, attempt, maxRetries, retryDelay, p);
        KbDeleteAttemptsCount(kb, attempt + 1, maxRetries, retryDelay, q);
        FilterAppend([call, Sleep(retryDelay)], Issued(q, r.provider), IsKbDelete);
        assert Filter([call, Sleep(retryDelay)], IsKbDelete) == [call];
      } else {
        IssuedExactly(p, r.provider, [call]);
        assert Filter([call], IsKbDelete) == [call];
      }
    }
  }

  /** Success exactly when the last delete call succeeded, and every earlier
      call failed. */
  lemma {:induction false} KbDeleteAttemptsOutcome(kb: string, attempt: nat, maxRetries: int, retryDelay: nat, p: Provider)
    ensures var r := KbDeleteAttempts(kb, attempt, maxRetries, retryDelay, p);
      var K := Filter(Issued(p, r.provider), IsKbDelete);
      && (r.value <==> |K| > 0 && K[|K| - 1].answer.Ok?)
      && (forall j :: 0 <= j < |K| - 1 ==> K[j].answer.Fail?)
    decreases maxRetries - attempt
  {
    var r := KbDeleteAttempts(kb, attempt, maxRetries, retryDelay, p);
    if attempt >= maxRetries {
      IssuedExactly(p, r.provider, []);
    } else {
      var call := KbDelete(kb, p.NextDelete());
      if p.NextDelete().Fail? && attempt < maxRetries - 1 {
        var q := p.AfterDelete().Logged(call).Logged(Sleep(retryDelay));
        KbDeleteRetried(kb, attempt, maxRetries, retryDelay, p);
        KbDeleteAttemptsOutcome(kb, attempt + 1, maxRetries, retryDelay, q);
        KbDeleteAttemptsCount(kb, attempt + 1, maxRetries, retryDelay, q);
        FailedFirst(Issued(p, r.provider), Issued(q, r.provider), call, retryDelay);
      } else {
        IssuedExactly(p, r.provider, [call]);
        assert Filter([call], IsKbDelete) == [call];
      }
    }
  }

  /** Putting one failed delete call and a pause in front of the calls
      that followed them. */
  lemma FailedFirst(calls: seq<Call>, rest: seq<Call>, call: Call, delay: nat)
    requires call.KbDelete? && call.answer.Fail? && calls == [call, Sleep(delay)] + rest
    requires var Kn := Filter(rest, IsKbDelete);
      |Kn| > 0 && forall j :: 0 <= j < |Kn| - 1 ==> Kn[j].answer.Fail?
    ensures var K, Kn := Filter(calls, IsKbDelete), Filter(rest, IsKbDelete);
      && |K| == |Kn| + 1 && K[|K| - 1] == Kn[|Kn| - 1]
      && forall j :: 0 <= j < |K| - 1 ==> K[j].answer.Fail?
  {
    var K, Kn := Filter(calls, IsKbDelete), Filter(rest, IsKbDelete);
    FilterAppend([call, Sleep(delay)], rest, IsKbDelete);
    assert Filter([call, Sleep(delay)], IsKbDelete) == [call];
    forall j | 0 < j < |K| - 1
      ensures K[j].answer.Fail?
    {
      assert K[j] == Kn[j - 1];
    }
  }

  /** The loop deletes this knowledge base and nothing else. */
  lemma {:induction false} KbDeleteAttemptsTargets(kb: string, attempt: nat, maxRetries: int, retryDelay: nat, p: Provider)
    ensures var r := KbDeleteAttempts(kb, attempt, maxRetries, retryDelay, p);
      var calls := Issued(p, r.provider);
      && KbTargets(calls) == Repeat(kb, |Filter(calls, IsKbDelete)|)
      && DsTargets(calls) == [] && Filter(calls, IsDsDelete) == []
    decreases maxRetries - attempt
  {
    var r := KbDeleteAttempts(kb, attempt, maxRetries, retryDelay, p);
    if attempt >= maxRetries {
      IssuedExactly(p, r.provider, []);
    } else {
      var answer := p.NextDelete();
      var call := KbDelete(kb, answer);
      if !answer.Ok? && attempt < maxRetries - 1 {
        var q := p.AfterDelete().Logged(call).Logged(Sleep(retryDelay));
        var rest := Issued(q, r.provider);
        KbDeleteRetried(kb, attempt, maxRetries, retryDelay, p);
        KbDeleteAttemptsTargets(kb, attempt + 1, maxRetries, retryDelay, q);
        FilterAppend([call, Sleep(retryDelay)], rest, IsKbDelete);
        FilterAppend([call, Sleep(retryDelay)], rest, IsDsDelete);
        TargetsAppend([call, Sleep(retryDelay)], rest);
        assert Filter([call, Sleep(retryDelay)], IsKbDelete) == [call];
        assert KbTargets([call, Sleep(retryDelay)]) == [kb];
      } else {
        IssuedExactly(p, r.provider, [call]);
        assert KbTargets([call]) == [kb];
      }
    }
  }
}
