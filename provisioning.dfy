/** The control logic of the provisioning script (kb_test.py).

    The script creates the OpenSearch Serverless policies and collection,
    the knowledge base, its data source and ingestion job, and the agent,
    waiting after each step for the resource to reach the status it needs.
    Every call is again replaced by a scripted reply: a status read by an
    element of a sequence of replies, a listing by a sequence of summaries.

    What is modelled is the decision taken on those replies: which entry of
    a list is picked, when a polling loop stops and how it ends, which
    calls are skipped, and how the agent's answer is put together. */
module Provisioning {
  import opened Text
  import opened ProviderModel

  // ---------------------------------------------------------------------------
  // Finding the first entry that qualifies

  /** The position of the first element of `s` that satisfies `p`, or `|s|`
      when none does. Every search-with-`break`, `next(...)` and
      poll-until loop of the script stops there. */
  function FirstIndex<T>(s: seq<T>, p: T -> bool): (k: nat)
    ensures k <= |s|
    ensures forall j :: 0 <= j < k ==> !p(s[j])
    ensures k < |s| ==> p(s[k])
  {
    if s == [] || p(s[0]) then 0 else 1 + FirstIndex(s[1..], p)
  }

  /** A position with nothing before it that qualifies, and that qualifies
      itself unless it is the end, is the first one. */
  lemma FirstIndexIs<T>(s: seq<T>, p: T -> bool, k: nat)
    requires k <= |s|
    requires forall j :: 0 <= j < k ==> !p(s[j])
    requires k < |s| ==> p(s[k])
    ensures FirstIndex(s, p) == k
  {
  }

  /** Later entries do not matter once an entry qualifies: a poll that has
      stopped stays stopped whatever the service would have answered next. */
  lemma {:induction false} FirstIndexAppend<T>(a: seq<T>, b: seq<T>, p: T -> bool)
    ensures FirstIndex(a + b, p) == if FirstIndex(a, p) < |a| then FirstIndex(a, p) else |a| + FirstIndex(b, p)
    decreases |a|
  {
    if a == [] {
      assert a + b == b;
    } else {
      assert (a + b)[0] == a[0];
      assert (a + b)[1..] == a[1..] + b;
      FirstIndexAppend(a[1..], b, p);
    }
  }

  /** How a wait ended. `Failed` is the exception raised on a failure
      status, `Raised` a failed call that the loop does not catch,
      `TimedOut` the TimeoutError after the last attempt, and `Unfinished`
      a `while True` poll whose scripted replies ran out while it would
      still be polling. */
  datatype WaitEnd = Ready | Failed(status: string) | Raised(failure: Failure) | TimedOut | Unfinished

  // ---------------------------------------------------------------------------
  // The collection endpoint (create_vector_index, wait_for_index_ready)

  const AossDomain: string := ".aoss.amazonaws.com"

  /** `parts = arn.split(":"); region = parts[3]; name = arn.split("/")[-1]`
      and the endpoint `name.region.aoss.amazonaws.com`; None when the ARN
      has no fourth field, where Python raises IndexError. */
  function Endpoint(arn: string): Option<string>
  {
    var parts := Split(arn, ':');
    if |parts| < 4 then None else Some(LastField(arn, '/') + "." + parts[3] + AossDomain)
  }

  /** The ARN of an OpenSearch Serverless collection. */
  function CollectionArn(region: string, account: string, id: string): string
  {
    "arn:aws:aoss:" + region + ":" + account + ":collection/" + id
  }

  /** The fourth field of a collection ARN is its region. */
  lemma RegionField(region: string, account: string, id: string)
    requires ':' !in region
    ensures var parts := Split(CollectionArn(region, account, id), ':'); |parts| >= 4 && parts[3] == region
  {
    var rest := account + ":collection/" + id;
    var third := region + [':'] + rest;
    var second := "aoss" + [':'] + third;
    var first := "aws" + [':'] + second;
    assert CollectionArn(region, account, id) == "arn" + [':'] + first;
    SplitCons("arn", first, ':');
    SplitCons("aws", second, ':');
    SplitCons("aoss", third, ':');
    SplitCons(region, rest, ':');
  }

  /** The text after the last slash of a collection ARN is its id. */
  lemma NameField(region: string, account: string, id: string)
    requires '/' !in id
    ensures LastField(CollectionArn(region, account, id), '/') == id
  {
    var front := "arn:aws:aoss:" + region + ":" + account + ":collection";
    assert CollectionArn(region, account, id) == front + ['/'] + id;
    LastFieldAfter(front, id, '/');
  }

  /** The endpoint of a collection is its id, then its region, then the
      service domain. */
  lemma EndpointOfCollectionArn(region: string, account: string, id: string)
    requires ':' !in region && '/' !in id
    ensures Endpoint(CollectionArn(region, account, id)) == Some(id + "." + region + AossDomain)
  {
    RegionField(region, account, id);
    NameField(region, account, id);
  }

  /** The ARN can be parsed exactly when it holds at least three colons. */
  lemma EndpointDefined(arn: string)
    ensures Endpoint(arn).Some? <==> multiset(arn)[':'] >= 3
  {
    SplitCount(arn, ':');
  }

  // ---------------------------------------------------------------------------
  // ensure_opensearch_policies: the data access policy

  /** One entry of `list_access_policies`. */
  datatype PolicySummary = PolicySummary(name: string, version: string)

  /** The calls made on the data access policy, in order. */
  datatype PolicyCall = CreatePolicy | ListPolicies | UpdatePolicy(version: string)

  /** How the data access policy step ended. */
  datatype PolicyEnd = PolicyCreated | PolicyUpdated | PolicyUnchanged | PolicyNotFound | PolicyRaised(failure: Failure)

  const DataPolicyName: string := "data-policy-test-genai-1"

  function NamedPolicy(name: string): PolicySummary -> bool
  {
    (s: PolicySummary) => s.name == name
  }

  /** The create call failed because the policy exists already. */
  predicate IsConflict<T>(answer: Reply<T>)
  {
    answer.Fail? && answer.failure.ClientError? && answer.failure.code == "ConflictException"
  }

  /** The update was refused because the policy already says the same. */
  predicate NoChanges(answer: Reply<()>)
  {
    && answer.Fail? && answer.failure.ClientError? && answer.failure.code == "ValidationException"
    && Contains(ErrorText(answer.failure.code, "UpdateAccessPolicy", answer.failure.message), "No changes detected")
  }

  /** The search-with-`break` for `current_version`: the version of the first
      summary with the policy's name, None when there is none. */
  method FindPolicyVersion(summaries: seq<PolicySummary>, name: string) returns (version: Option<string>)
    ensures var k := FirstIndex(summaries, NamedPolicy(name));
      version == if k < |summaries| then Some(summaries[k].version) else None
  {
    version := None;
    var i := 0;
    while i < |summaries|
      invariant 0 <= i <= |summaries|
      invariant forall j :: 0 <= j < i ==> !NamedPolicy(name)(summaries[j])
    {
      if summaries[i].name == name {
        version := Some(summaries[i].version);
        FirstIndexIs(summaries, NamedPolicy(name), i);
        return;
      }
      i := i + 1;
    }
    FirstIndexIs(summaries, NamedPolicy(name), i);
  }

  /** The data access policy part of `ensure_opensearch_policies`: create the
      policy; if it exists already, list the policies (a failed listing
      raises), look up the version and update the policy, but only when a
      version was found and is not empty. */
  method EnsureDataPolicy(create: Reply<()>, listed: Reply<seq<PolicySummary>>, update: Reply<()>)
    returns (end: PolicyEnd, calls: seq<PolicyCall>)
    ensures !IsConflict(create) ==>
      calls == [CreatePolicy] && end == if create.Ok? then PolicyCreated else PolicyRaised(create.failure)
    ensures IsConflict(create) && listed.Fail? ==>
      calls == [CreatePolicy, ListPolicies] && end == PolicyRaised(listed.failure)
    ensures IsConflict(create) && listed.Ok? ==>
      var found := listed.value;
      var k := FirstIndex(found, NamedPolicy(DataPolicyName));
      k == |found| || found[k].version == "" ==>
        calls == [CreatePolicy, ListPolicies] && end == PolicyNotFound
    ensures IsConflict(create) && listed.Ok? ==>
      var found := listed.value;
      var k := FirstIndex(found, NamedPolicy(DataPolicyName));
      k < |found| && found[k].version != "" ==>
        && calls == [CreatePolicy, ListPolicies, UpdatePolicy(found[k].version)]
        && end == if update.Ok? then PolicyUpdated else if NoChanges(update) then PolicyUnchanged else PolicyRaised(update.failure)
  {
    calls := [CreatePolicy];
    if create.Ok? {
      return PolicyCreated, calls;
    }
    if !IsConflict(create) {
      return PolicyRaised(create.failure), calls;
    }
    calls := calls + [ListPolicies];
    if listed.Fail? {
      return PolicyRaised(listed.failure), calls;
    }
    var version := FindPolicyVersion(listed.value, DataPolicyName);
    if version.None? || version.value == "" {
      return PolicyNotFound, calls;
    }
    calls := calls + [UpdatePolicy(version.value)];
    if update.Ok? {
      end := PolicyUpdated;
    } else if NoChanges(update) {
      end := PolicyUnchanged;
    } else {
      end := PolicyRaised(update.failure);
    }
  }

  // ---------------------------------------------------------------------------
  // create_collection and create_vector_index

  /** One entry of `list_collections`. */
  datatype CollectionSummary = CollectionSummary(name: string, status: string, arn: string)

  const CollectionName: string := "test-genai-1"

  function ActiveNamed(name: string): CollectionSummary -> bool
  {
    (c: CollectionSummary) => c.name == name && c.status == "ACTIVE"
  }

  function CollectionNamed(name: string): CollectionSummary -> bool
  {
    (c: CollectionSummary) => c.name == name
  }

  /** `list_collections` raised, or its answer holds an ACTIVE collection
      with that name: either way the polling loop stops. */
  function CollectionSettled(name: string): Reply<seq<CollectionSummary>> -> bool
  {
    (listing: Reply<seq<CollectionSummary>>) => listing.Fail? || FirstIndex(listing.value, ActiveNamed(name)) < |listing.value|
  }

  /** How the polling loop of `create_collection` ended. */
  datatype CollectionWait = Active(arn: string) | ListingRaised(failure: Failure) | StillWaiting

  /** The polling loop of `create_collection` over the successive answers
      of `list_collections`: it returns the ARN of the first ACTIVE
      collection with the name in the first listing that holds one, a
      failed listing raises, and it sleeps after every listing that holds
      none. */
  method WaitForCollection(listings: seq<Reply<seq<CollectionSummary>>>, name: string)
    returns (end: CollectionWait, polls: nat, sleeps: nat)
    ensures var f := FirstIndex(listings, CollectionSettled(name));
      && polls == (if f < |listings| then f + 1 else |listings|)
      && sleeps == f
      && end == if f == |listings| then StillWaiting
                else if listings[f].Fail? then ListingRaised(listings[f].failure)
                else Active(listings[f].value[FirstIndex(listings[f].value, ActiveNamed(name))].arn)
  {
    polls, sleeps := 0, 0;
    while polls < |listings|
      invariant polls <= |listings| && sleeps == polls
      invariant forall j :: 0 <= j < polls ==> !CollectionSettled(name)(listings[j])
    {
      var listing := listings[polls];
      polls := polls + 1;
      if listing.Fail? {
        FirstIndexIs(listings, CollectionSettled(name), polls - 1);
        return ListingRaised(listing.failure), polls, sleeps;
      }
      var cols := listing.value;
      var i := 0;
      while i < |cols|
        invariant 0 <= i <= |cols|
        invariant forall j :: 0 <= j < i ==> !ActiveNamed(name)(cols[j])
      {
        if cols[i].name == name && cols[i].status == "ACTIVE" {
          FirstIndexIs(cols, ActiveNamed(name), i);
          FirstIndexIs(listings, CollectionSettled(name), polls - 1);
          return Active(cols[i].arn), polls, sleeps;
        }
        i := i + 1;
      }
      FirstIndexIs(cols, ActiveNamed(name), i);
      sleeps := sleeps + 1;
    }
    FirstIndexIs(listings, CollectionSettled(name), polls);
    end := StillWaiting;
  }

  /** Where `create_vector_index` sends its request, or why it raised. */
  datatype IndexTarget = IndexAt(endpoint: string) | ListFailed(failure: Failure) | ArnNotFound | BadArn

  /** `create_vector_index`: the ARN of the first collection with the name,
      whatever its status; a failed `list_collections` raises, an empty or
      missing ARN raises, and so does one the endpoint cannot be parsed
      from. */
  function VectorIndexTarget(listing: Reply<seq<CollectionSummary>>, name: string): (t: IndexTarget)
    ensures t.ListFailed? <==> listing.Fail?
  {
    if listing.Fail? then ListFailed(listing.failure)
    else
      var cols := listing.value;
      var k := FirstIndex(cols, CollectionNamed(name));
      if k == |cols| || cols[k].arn == "" then ArnNotFound
      else match Endpoint(cols[k].arn)
        case None => BadArn
        case Some(endpoint) => IndexAt(endpoint)
  }

  /** The index goes to the endpoint of the first collection with the name. */
  lemma VectorIndexAtCollection(cols: seq<CollectionSummary>, name: string, k: nat, region: string, account: string, id: string)
    requires k < |cols| && cols[k].name == name && cols[k].arn == CollectionArn(region, account, id)
    requires forall j :: 0 <= j < k ==> cols[j].name != name
    requires ':' !in region && '/' !in id
    ensures VectorIndexTarget(Ok(cols), name) == IndexAt(id + "." + region + AossDomain)
  {
    FirstIndexIs(cols, CollectionNamed(name), k);
    EndpointOfCollectionArn(region, account, id);
  }

  /** Without a collection of that name no request is sent. */
  lemma VectorIndexWithoutCollection(cols: seq<CollectionSummary>, name: string)
    requires forall j :: 0 <= j < |cols| ==> cols[j].name != name
    ensures VectorIndexTarget(Ok(cols), name) == ArnNotFound
  {
    FirstIndexIs(cols, CollectionNamed(name), |cols|);
  }

  // ---------------------------------------------------------------------------
  // wait_for_kb_active and start_ingestion

  /** `get_knowledge_base` raised, or the status is ACTIVE or FAILED. */
  predicate KbSettled(read: Reply<string>)
  {
    read.Fail? || read.value == "ACTIVE" || read.value == "FAILED"
  }

  /** `wait_for_kb_active` over the successive status statuses: it stops at the
      first ACTIVE, FAILED or failed read, and sleeps after every other. */
  method WaitForKbActive(statuses: seq<Reply<string>>) returns (end: WaitEnd, used: nat, sleeps: nat)
    ensures var i := FirstIndex(statuses, KbSettled);
      && used == (if i < |statuses| then i + 1 else |statuses|)
      && sleeps == i
      && end == if i == |statuses| then Unfinished
                else if statuses[i].Fail? then Raised(statuses[i].failure)
                else if statuses[i].value == "ACTIVE" then Ready
                else Failed("FAILED")
  {
    used, sleeps := 0, 0;
    while used < |statuses|
      invariant used <= |statuses| && sleeps == used
      invariant forall j :: 0 <= j < used ==> !KbSettled(statuses[j])
    {
      var read := statuses[used];
      used := used + 1;
      if read.Fail? {
        FirstIndexIs(statuses, KbSettled, used - 1);
        return Raised(read.failure), used, sleeps;
      }
      var status := read.value;
      if status == "ACTIVE" {
        FirstIndexIs(statuses, KbSettled, used - 1);
        return Ready, used, sleeps;
      } else if status == "FAILED" {
        FirstIndexIs(statuses, KbSettled, used - 1);
        return Failed("FAILED"), used, sleeps;
      }
      sleeps := sleeps + 1;
    }
    FirstIndexIs(statuses, KbSettled, used);
    end := Unfinished;
  }

  /** `get_ingestion_job` raised, or the job is COMPLETE or FAILED. */
  predicate IngestionSettled(read: Reply<string>)
  {
    read.Fail? || read.value == "COMPLETE" || read.value == "FAILED"
  }

  /** The polling loop of `start_ingestion` and the check after it: the loop
      stops at the first COMPLETE or FAILED state, and the function raises
      unless that state is COMPLETE. */
  method WaitForIngestion(statuses: seq<Reply<string>>) returns (end: WaitEnd, used: nat, sleeps: nat)
    ensures var i := FirstIndex(statuses, IngestionSettled);
      && used == (if i < |statuses| then i + 1 else |statuses|)
      && sleeps == i
      && end == if i == |statuses| then Unfinished
                else if statuses[i].Fail? then Raised(statuses[i].failure)
                else if statuses[i].value == "COMPLETE" then Ready
                else Failed("FAILED")
  {
    used, sleeps := 0, 0;
    var state := "";
    while used < |statuses|
      invariant used <= |statuses| && sleeps == used
      invariant forall j :: 0 <= j < used ==> !IngestionSettled(statuses[j])
    {
      var read := statuses[used];
      used := used + 1;
      if read.Fail? {
        FirstIndexIs(statuses, IngestionSettled, used - 1);
        return Raised(read.failure), used, sleeps;
      }
      state := read.value;
      if state == "COMPLETE" || state == "FAILED" {
        FirstIndexIs(statuses, IngestionSettled, used - 1);
        break;
      }
      sleeps := sleeps + 1;
    }
    if used == sleeps {
      FirstIndexIs(statuses, IngestionSettled, used);
      return Unfinished, used, sleeps;
    }
    if state == "COMPLETE" {
      end := Ready;
    } else {
      end := Failed(state);
    }
  }

  // ---------------------------------------------------------------------------
  // wait_for_agent_status

  /** The agent status seen at attempt `k`: a read that raised, or whose
      answer lacks the status, counts as UNKNOWN (so does a read past the
      scripted ones). */
  function AgentStatus(statuses: seq<Option<string>>, k: nat): string
  {
    if k < |statuses| && statuses[k].Some? then statuses[k].value else "UNKNOWN"
  }

  /** The statuses seen by the first `n` attempts. */
  function AgentStatuses(statuses: seq<Option<string>>, n: nat): (s: seq<string>)
    ensures |s| == n && forall k :: 0 <= k < n ==> s[k] == AgentStatus(statuses, k)
  {
    seq(n, k requires 0 <= k < n => AgentStatus(statuses, k))
  }

  /** The statuses that end the wait: the expected one, then the three
      terminal ones. */
  function AgentStops(expected: string): string -> bool
  {
    s => s == expected || s == "FAILED" || s == "DELETING" || s == "DELETED"
  }

  /** `wait_for_agent_status(client, agent, expected, max_retries)`: at most
      `max_retries` statuses; it returns at the first read equal to the
      expected status, raises at the first terminal one (the expected status
      is compared first), and raises TimeoutError once every attempt has
      seen neither, sleeping after each such attempt. */
  method WaitForAgentStatus(statuses: seq<Option<string>>, expected: string, maxRetries: int)
    returns (end: WaitEnd, polls: nat, sleeps: nat)
    ensures var n := if maxRetries > 0 then maxRetries else 0;
      var seen := AgentStatuses(statuses, n);
      var i := FirstIndex(seen, AgentStops(expected));
      && polls == (if i < n then i + 1 else n)
      && sleeps == i
      && end == if i == n then TimedOut else if seen[i] == expected then Ready else Failed(seen[i])
  {
    var n := if maxRetries > 0 then maxRetries else 0;
    ghost var seen := AgentStatuses(statuses, n);
    polls, sleeps := 0, 0;
    for attempt := 0 to n
      invariant polls == sleeps == attempt
      invariant forall j :: 0 <= j < attempt ==> !AgentStops(expected)(seen[j])
    {
      var current := "UNKNOWN";
      if attempt < |statuses| && statuses[attempt].Some? {
        current := statuses[attempt].value;
      }
      assert current == seen[attempt];
      polls := polls + 1;
      if current == expected {
        FirstIndexIs(seen, AgentStops(expected), attempt);
        return Ready, polls, sleeps;
      } else if current == "FAILED" || current == "DELETING" || current == "DELETED" {
        FirstIndexIs(seen, AgentStops(expected), attempt);
        return Failed(current), polls, sleeps;
      }
      sleeps := sleeps + 1;
    }
    FirstIndexIs(seen, AgentStops(expected), n);
    end := TimedOut;
  }

  // ---------------------------------------------------------------------------
  // enable_code_interpreter

  /** What `create_action_group` returns: the new group's id, None when the
      text of the ClientError mentions a ConflictException, or the error it
      re-raises. */
  datatype Creation = Created(id: string) | AlreadyExists | CreateFailed(failure: Failure)

  function CreateActionGroup(answer: Reply<string>): Creation
  {
    match answer
    case Ok(id) => Created(id)
    case Fail(f) =>
      if f.ClientError? && Contains(ErrorText(f.code, "CreateAgentActionGroup", f.message), "ConflictException")
      then AlreadyExists
      else CreateFailed(f)
  }

  /** A ConflictException is always recognised, since botocore writes the
      error code into the text of the error. */
  lemma ConflictMeansExisting(message: string)
    ensures CreateActionGroup(Fail(ClientError("ConflictException", message))) == AlreadyExists
  {
    var code := "ConflictException";
    var head := "An error occurred (";
    var text := ErrorText(code, "CreateAgentActionGroup", message);
    var tail := ") when calling the CreateAgentActionGroup operation: " + message;
    assert text == head + code + tail;
    assert text[|head|..|head| + |code|] == code;
    assert OccursAt(text, code, |head|);
    ContainsIffOccurs(text, code);
  }

  /** `get_agent_action_group` raised, or the group is ENABLED. */
  predicate GroupSettled(read: Reply<string>)
  {
    read.Fail? || read.value == "ENABLED"
  }

  /** How the wait for one action group ends; there is no failure status. */
  function GroupEnd(statuses: seq<Reply<string>>): WaitEnd
  {
    var i := FirstIndex(statuses, GroupSettled);
    if i == |statuses| then Unfinished else if statuses[i].Fail? then Raised(statuses[i].failure) else Ready
  }

  /** How many status reads the wait for one action group takes. */
  function GroupReads(statuses: seq<Reply<string>>): (n: nat)
    ensures n <= |statuses|
  {
    var i := FirstIndex(statuses, GroupSettled);
    if i < |statuses| then i + 1 else |statuses|
  }

  /** `while status != "ENABLED"` for one action group; the loop sleeps after
      every read, the one that sees ENABLED included. */
  method WaitForActionGroup(statuses: seq<Reply<string>>) returns (end: WaitEnd, used: nat, sleeps: nat)
    ensures end == GroupEnd(statuses) && used == GroupReads(statuses)
    ensures sleeps == if end.Raised? then used - 1 else used
  {
    used, sleeps := 0, 0;
    var status := "";
    while status != "ENABLED"
      invariant used <= |statuses| && sleeps == used
      invariant forall j :: 0 <= j < used ==> !GroupSettled(statuses[j])
      invariant status == "ENABLED" ==> used > 0 && statuses[used - 1] == Ok("ENABLED")
      decreases |statuses| - used, if status == "ENABLED" then 0 else 1
    {
      if used == |statuses| {
        FirstIndexIs(statuses, GroupSettled, used);
        return Unfinished, used, sleeps;
      }
      var read := statuses[used];
      used := used + 1;
      if read.Fail? {
        FirstIndexIs(statuses, GroupSettled, used - 1);
        return Raised(read.failure), used, sleeps;
      }
      status := read.value;
      sleeps := sleeps + 1;
      if status == "ENABLED" {
        FirstIndexIs(statuses, GroupSettled, used - 1);
        return Ready, used, sleeps;
      }
    }
    end := Ready;
  }

  /** The waits of `enable_code_interpreter`, group by group in order: a group
      that already existed is skipped without a read; the first wait that
      does not end Ready ends the whole step with its outcome. */
  ghost predicate GroupsWaited(created: seq<Creation>, statuses: seq<seq<Reply<string>>>, waited: seq<nat>, end: WaitEnd)
    requires |statuses| == |created|
  {
    && |waited| <= |created|
    && (forall k :: 0 <= k < |waited| ==> waited[k] == if created[k].Created? then GroupReads(statuses[k]) else 0)
    && (forall k :: 0 <= k < |waited| - 1 ==> !created[k].Created? || GroupEnd(statuses[k]) == Ready)
    && (end == Ready ==> |waited| == |created| && forall k :: 0 <= k < |created| ==> !created[k].Created? || GroupEnd(statuses[k]) == Ready)
    && (end != Ready ==> |waited| > 0 && created[|waited| - 1].Created? && end == GroupEnd(statuses[|waited| - 1]))
  }

  /** `enable_code_interpreter` up to the re-preparation of the agent: create
      the UserInput group, then the CodeInterpreter group (a failed creation
      raises at once), then wait for each group that was created to be
      ENABLED. `waited` holds the number of status reads for each group
      that was reached. */
  method EnableCodeInterpreter(userInput: Reply<string>, codeInterpreter: Reply<string>, statuses: seq<seq<Reply<string>>>)
    returns (end: WaitEnd, waited: seq<nat>)
    requires |statuses| == 2
    ensures var first, second := CreateActionGroup(userInput), CreateActionGroup(codeInterpreter);
      && (first.CreateFailed? ==> end == Raised(first.failure) && waited == [])
      && (!first.CreateFailed? && second.CreateFailed? ==> end == Raised(second.failure) && waited == [])
      && (!first.CreateFailed? && !second.CreateFailed? ==> GroupsWaited([first, second], statuses, waited, end))
  {
    var first := CreateActionGroup(userInput);
    if first.CreateFailed? {
      return Raised(first.failure), [];
    }
    var second := CreateActionGroup(codeInterpreter);
    if second.CreateFailed? {
      return Raised(second.failure), [];
    }
    var created := [first, second];
    waited := [];
    var k := 0;
    while k < 2
      invariant 0 <= k <= 2 && |waited| == k
      invariant forall j :: 0 <= j < k ==> waited[j] == if created[j].Created? then GroupReads(statuses[j]) else 0
      invariant forall j :: 0 <= j < k ==> !created[j].Created? || GroupEnd(statuses[j]) == Ready
    {
      if created[k].AlreadyExists? {
        waited := waited + [0];
        k := k + 1;
        continue;
      }
      var one, used, sleeps := WaitForActionGroup(statuses[k]);
      waited := waited + [used];
      if one != Ready {
        return one, waited;
      }
      k := k + 1;
    }
    end := Ready;
  }

  // ---------------------------------------------------------------------------
  // invoke_agent

  /** One event of the completion stream: the bytes of its chunk, None when
      it carries no chunk or the chunk no bytes. Bytes are taken as already
      decoded text. */
  datatype Event = Event(bytes: Option<string>)

  /** The completion stream: its events, and whether reading it raised after
      the last of them. */
  datatype Completion = Completion(events: seq<Event>, broken: bool)

  /** The `completionResponse` of a non-streaming answer, and its `text` if it has one. */
  datatype CompletionResponse = CompletionResponse(text: Option<string>)

  /** The keys of the `invoke_agent` response the function looks at. */
  datatype AgentResponse = AgentResponse(completion: Option<Completion>, completionResponse: Option<CompletionResponse>)

  function BytesOf(e: Event): string
  {
    if e.bytes.Some? then e.bytes.value else ""
  }

  /** The bytes of the events that carry some, in stream order. */
  function Chunks(events: seq<Event>): string
  {
    if events == [] then "" else Chunks(events[..|events| - 1]) + BytesOf(events[|events| - 1])
  }

  /** The text of a stream is the text of its first part followed by the text
      of the rest. */
  lemma {:induction false} ChunksAppend(a: seq<Event>, b: seq<Event>)
    ensures Chunks(a + b) == Chunks(a) + Chunks(b)
    decreases |b|
  {
    if b == [] {
      assert a + b == a;
    } else {
      var b' := b[..|b| - 1];
      assert (a + b)[..|a + b| - 1] == a + b';
      assert (a + b)[|a + b| - 1] == b[|b| - 1];
      ChunksAppend(a, b');
    }
  }

  /** An event without bytes adds nothing to the answer. */
  lemma ChunksSkip(a: seq<Event>, b: seq<Event>)
    ensures Chunks(a + [Event(None)] + b) == Chunks(a + b)
  {
    ChunksAppend(a, [Event(None)]);
    assert Chunks([Event(None)]) == "" by {
      assert [Event(None)][..0] == [];
    }
    assert Chunks(a + [Event(None)]) == Chunks(a);
    ChunksAppend(a + [Event(None)], b);
    ChunksAppend(a, b);
  }

  /** `invoke_agent`: `reply` is what `runtime.invoke_agent` returned or the
      error it raised. A streamed answer is the concatenation of its chunks,
      stripped; `completionResponse` is read only when there is no stream;
      any error gives the empty answer. */
  method InvokeAgent(reply: Reply<AgentResponse>) returns (answer: string)
    ensures reply.Fail? ==> answer == ""
    ensures reply.Ok? && reply.value.completion.Some? ==>
      var c := reply.value.completion.value;
      answer == if c.broken then "" else Strip(Chunks(c.events))
    ensures reply.Ok? && reply.value.completion.None? && reply.value.completionResponse.Some? ==>
      var text := reply.value.completionResponse.value.text;
      answer == Strip(if text.Some? then text.value else "")
    ensures reply.Ok? && reply.value.completion.None? && reply.value.completionResponse.None? ==> answer == ""
  {
    if reply.Fail? {
      return "";
    }
    var response := reply.value;
    if response.completion.Some? {
      var events := response.completion.value.events;
      var full := "";
      var k := 0;
      while k < |events|
        invariant 0 <= k <= |events|
        invariant full == Chunks(events[..k])
      {
        assert events[..k + 1][..k] == events[..k];
        if events[k].bytes.Some? {
          full := full + events[k].bytes.value;
        }
        k := k + 1;
      }
      assert events[..k] == events;
      if response.completion.value.broken {
        return "";
      }
      return Strip(full);
    } else if response.completionResponse.Some? {
      var text := response.completionResponse.value.text;
      var output := if text.Some? then text.value else "";
      return Strip(output);
    }
    return "";
  }
}
