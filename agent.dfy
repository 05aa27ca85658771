/**
 * The node agent: it answers the orchestrator's `ListUnits` and `StartUnit`
 * calls by forwarding them to the service manager, keeps every forwarded
 * call in a list of outstanding requests until its reply arrives, and
 * routes job completions back to the orchestrator through a registry of
 * job trackers.
 *
 * Every bus primitive is an oracle parameter that says whether it succeeded
 * (and, for a read, what it read). The messages the agent sends are
 * appended to `Agent.sent`. Each handler is one step of the single event
 * loop; between steps the agent satisfies `Quiescent()`.
 *
 * Ownership of the `StartUnitOp` payload is tracked by ghost state: every
 * payload ever allocated has an entry in `holder` naming the one
 * outstanding request or tracker that is to free it, or saying that it has
 * been freed, and `freed` logs the destructor calls.
 */
module AgentCore {

  import opened Wrappers
  import opened Lists
  import opened Bus

  /** Default port of the orchestrator. */
  const HIRTE_DEFAULT_PORT: uint16 := 842

  /** The error the handlers reply with when a local step fails. */
  const INTERNAL_ERROR := BusError(ERROR_FAILED, "Internal error")
  /** The same error as the `StartUnit` reply callback spells it. */
  const INTERNAL_ERROR_CAPITALISED := BusError(ERROR_FAILED, "Internal Error")
  /** The reply to a `StartUnit` call whose arguments are not `ssu`. */
  const INVALID_ARGUMENTS := BusError(ERROR_INVALID_ARGS, "Invalid arguments")

  const LIST_UNITS: string := "ListUnits"
  const START_UNIT: string := "StartUnit"

  /** The reply callback registered with an asynchronous call. */
  datatype ReplyCallback = ListUnitsReply | StartUnitReply

  /** The callback a job tracker runs when its job is removed. */
  datatype JobCallback = EmitJobDone

  /** The arguments `uoss` of the service manager's `JobRemoved` signal. */
  datatype JobRemovedEvent = JobRemovedEvent(id: uint32, jobPath: string, unit: string, result: string)

  /** A configuration file: topics, each a map from key to value. */
  type Ini = map<string, map<string, string>>

  /**
   * An entry of `tracked_jobs`: the job object path it waits for, the
   * callback, its argument, and whether the argument is freed with the
   * tracker.
   */
  datatype JobTracker = JobTracker(
    jobObjectPath: string,
    callback: JobCallback,
    userdata: Option<StartUnitOp>,
    freeUserdata: bool)

  /** The payload of a `StartUnit` request: whose job it is, under the orchestrator's id. */
  class StartUnitOp {
    const agent: Agent
    const hirteJobId: uint32

    constructor (agent: Agent, hirteJobId: uint32)
      ensures this.agent == agent && this.hirteJobId == hirteJobId
    {
      this.agent := agent;
      this.hirteJobId := hirteJobId;
    }
  }

  /** Who is to run the destructor on a payload: a request, a job tracker, or nobody because it has run. */
  datatype Holder = HeldByRequest(req: SystemdRequest) | HeldByTracker | Freed

  /** What the destructor runs on when an owner is freed: the payload, if it has one and a destructor. */
  ghost function Destroyed(userdata: Option<StartUnitOp>, freeUserdata: bool): seq<StartUnitOp> {
    if userdata.Some? && freeUserdata then [userdata.value] else []
  }

  /** A tracker of `a` that frees its payload and that `h` names as the payload's holder. */
  ghost predicate Tracks(a: Agent, t: JobTracker, h: map<StartUnitOp, Holder>) {
    && t.userdata.Some? && t.freeUserdata && t.userdata.value.agent == a
    && t.userdata.value in h && h[t.userdata.value] == HeldByTracker
  }

  /**
   * Every tracker holds its own payload, no two trackers hold the same
   * one, and every payload `h` gives to a tracker is held by one.
   */
  ghost predicate TrackersHold(a: Agent, ts: seq<JobTracker>, h: map<StartUnitOp, Holder>) {
    && (forall i :: 0 <= i < |ts| ==> Tracks(a, ts[i], h))
    && (forall i, j :: 0 <= i < j < |ts| ==> ts[i].userdata != ts[j].userdata)
    && (forall p :: p in h && h[p] == HeldByTracker ==> exists i :: 0 <= i < |ts| && ts[i].userdata == Some(p))
  }

  /** The destructor has run once on each payload `h` marks freed, and on no other. */
  ghost predicate FreedOnce(freed: seq<StartUnitOp>, h: map<StartUnitOp, Holder>) {
    && Distinct(freed)
    && (forall p :: p in freed ==> p in h && h[p] == Freed)
    && (forall p :: p in h && h[p] == Freed ==> p in freed)
  }

  /** Handing a payload that no tracker held to a tracker prepended to the list keeps `TrackersHold`. */
  lemma TrackPrepended(a: Agent, ts: seq<JobTracker>, h: map<StartUnitOp, Holder>, t: JobTracker)
    requires TrackersHold(a, ts, h)
    requires t.userdata.Some? && t.freeUserdata && t.userdata.value.agent == a
    requires t.userdata.value in h && h[t.userdata.value] != HeldByTracker
    ensures TrackersHold(a, [t] + ts, h[t.userdata.value := HeldByTracker])
  {
    var op := t.userdata.value;
    var ts' := [t] + ts;
    var h' := h[op := HeldByTracker];
    forall i | 0 <= i < |ts'| ensures Tracks(a, ts'[i], h') {
      if i > 0 {
        assert ts'[i] == ts[i - 1] && Tracks(a, ts[i - 1], h);
      }
    }
    forall i, j | 0 <= i < j < |ts'| ensures ts'[i].userdata != ts'[j].userdata {
      assert ts'[j] == ts[j - 1] && Tracks(a, ts[j - 1], h);
      if i > 0 {
        assert ts'[i] == ts[i - 1];
      }
    }
    forall p | p in h' && h'[p] == HeldByTracker
      ensures exists i :: 0 <= i < |ts'| && ts'[i].userdata == Some(p)
    {
      if p == op {
        assert ts'[0].userdata == Some(p);
      } else {
        var k :| 0 <= k < |ts| && ts[k].userdata == Some(p);
        assert ts'[k + 1] == ts[k];
      }
    }
  }

  /** Unlinking the tracker at `i` and freeing its payload keeps `TrackersHold`. */
  lemma TrackerRemoved(a: Agent, ts: seq<JobTracker>, h: map<StartUnitOp, Holder>, i: nat)
    requires TrackersHold(a, ts, h) && i < |ts|
    ensures Tracks(a, ts[i], h)
    ensures TrackersHold(a, ts[..i] + ts[i + 1..], h[ts[i].userdata.value := Freed])
  {
    assert Tracks(a, ts[i], h);
    RemainingTrackersHold(a, ts, h, i);
    RemainingTrackersDistinct(ts, i);
    RemainingTrackersCover(ts, h, i);
  }

  /** The trackers left after unlinking the one at `i` still hold their payloads once its payload is freed. */
  lemma RemainingTrackersHold(a: Agent, ts: seq<JobTracker>, h: map<StartUnitOp, Holder>, i: nat)
    requires TrackersHold(a, ts, h) && i < |ts| && Tracks(a, ts[i], h)
    ensures var ts' := ts[..i] + ts[i + 1..];
      forall k :: 0 <= k < |ts'| ==> Tracks(a, ts'[k], h[ts[i].userdata.value := Freed])
  {
    var ts' := ts[..i] + ts[i + 1..];
    RemoveAtShifts(ts, i);
    forall k | 0 <= k < |ts'| ensures Tracks(a, ts'[k], h[ts[i].userdata.value := Freed]) {
      var k' := if k < i then k else k + 1;
      assert ts'[k] == ts[k'] && Tracks(a, ts[k'], h);
      assert ts[k'].userdata != ts[i].userdata;
    }
  }

  /** Unlinking a tracker leaves no two trackers with the same payload. */
  lemma RemainingTrackersDistinct(ts: seq<JobTracker>, i: nat)
    requires i < |ts| && forall k, l :: 0 <= k < l < |ts| ==> ts[k].userdata != ts[l].userdata
    ensures var ts' := ts[..i] + ts[i + 1..];
      forall k, l :: 0 <= k < l < |ts'| ==> ts'[k].userdata != ts'[l].userdata
  {
    var ts' := ts[..i] + ts[i + 1..];
    RemoveAtShifts(ts, i);
    forall k, l | 0 <= k < l < |ts'| ensures ts'[k].userdata != ts'[l].userdata {
      assert ts'[k] == ts[if k < i then k else k + 1];
      assert ts'[l] == ts[if l < i then l else l + 1];
    }
  }

  /** After unlinking the tracker at `i` and freeing its payload, every payload still given to a tracker is held by one. */
  lemma RemainingTrackersCover(ts: seq<JobTracker>, h: map<StartUnitOp, Holder>, i: nat)
    requires i < |ts| && ts[i].userdata.Some?
    requires forall p :: p in h && h[p] == HeldByTracker ==> exists k :: 0 <= k < |ts| && ts[k].userdata == Some(p)
    ensures var ts' := ts[..i] + ts[i + 1..]; var h' := h[ts[i].userdata.value := Freed];
      forall p :: p in h' && h'[p] == HeldByTracker ==> exists k :: 0 <= k < |ts'| && ts'[k].userdata == Some(p)
  {
    var ts' := ts[..i] + ts[i + 1..];
    var h' := h[ts[i].userdata.value := Freed];
    RemoveAtShifts(ts, i);
    forall p | p in h' && h'[p] == HeldByTracker
      ensures exists k :: 0 <= k < |ts'| && ts'[k].userdata == Some(p)
    {
      var k :| 0 <= k < |ts| && ts[k].userdata == Some(p);
      if k < i {
        assert ts'[k] == ts[k];
      } else {
        assert k != i;
        assert ts'[k - 1] == ts[k];
      }
    }
  }

  /** Passing a payload that no tracker holds from one non-tracker holder to another keeps `TrackersHold`. */
  lemma TrackersRetagged(a: Agent, ts: seq<JobTracker>, h: map<StartUnitOp, Holder>, p: StartUnitOp, x: Holder)
    requires TrackersHold(a, ts, h) && (p in h ==> h[p] != HeldByTracker) && x != HeldByTracker
    ensures TrackersHold(a, ts, h[p := x])
  {
    forall i | 0 <= i < |ts| ensures Tracks(a, ts[i], h[p := x]) {
      assert Tracks(a, ts[i], h);
    }
  }

  /** Running the destructor on a payload not yet freed keeps `FreedOnce`. */
  lemma FreedAppended(freed: seq<StartUnitOp>, h: map<StartUnitOp, Holder>, p: StartUnitOp)
    requires FreedOnce(freed, h) && p in h && h[p] != Freed
    ensures FreedOnce(freed + [p], h[p := Freed])
  {
    DistinctAppend(freed, p);
  }

  /** Passing a payload not yet freed to another live holder keeps `FreedOnce`. */
  lemma FreedRetagged(freed: seq<StartUnitOp>, h: map<StartUnitOp, Holder>, p: StartUnitOp, x: Holder)
    requires FreedOnce(freed, h) && (p in h ==> h[p] != Freed) && x != Freed
    ensures FreedOnce(freed, h[p := x])
  {
  }

  /** No tracker before index `n` waits for `path`. */
  predicate NoMatchBefore(ts: seq<JobTracker>, path: string, n: nat)
    requires n <= |ts|
  {
    forall j :: 0 <= j < n ==> ts[j].jobObjectPath != path
  }

  /** The index of the first tracker that waits for `path`, if any. */
  function FirstMatch(ts: seq<JobTracker>, path: string): (r: Option<nat>)
    ensures r.Some? ==> r.value < |ts| && ts[r.value].jobObjectPath == path && NoMatchBefore(ts, path, r.value)
    ensures r.None? ==> NoMatchBefore(ts, path, |ts|)
  {
    if ts == [] then None
    else if ts[0].jobObjectPath == path then Some(0)
    else match FirstMatch(ts[1..], path) {
      case None => None
      case Some(i) => Some(i + 1)
    }
  }

  /** A scan that stops at `i`, with no match before it, has found `FirstMatch`. */
  lemma FirstMatchAt(ts: seq<JobTracker>, path: string, i: nat)
    requires i <= |ts| && NoMatchBefore(ts, path, i)
    requires i < |ts| ==> ts[i].jobObjectPath == path
    ensures FirstMatch(ts, path) == if i < |ts| then Some(i) else None
  {
  }

  /**
   * `start_unit_job_done`: emits `JobDone` with the orchestrator's job id
   * and the job's result on the agent of the payload; a failed emission is
   * only logged.
   */
  method StartUnitJobDone(result: string, op: StartUnitOp, emitOk: bool)
    modifies op.agent`sent
    ensures op.agent.sent == old(op.agent.sent) + (if emitOk then [JobDone(op.hirteJobId, result)] else [])
  {
    if emitOk {
      op.agent.Send(JobDone(op.hirteJobId, result));
    }
  }

  /**
   * A call forwarded to the service manager: the orchestrator's call it
   * answers, the outbound method call, an optional payload with its
   * destructor flag, and the reply callback registered when it was started.
   */
  class SystemdRequest {
    var refCount: int
    const agent: Agent
    const requestMessage: nat
    var message: Option<MethodCall>
    var userdata: Option<StartUnitOp>
    var freeUserdata: bool
    var pending: Option<ReplyCallback>

    /** A zeroed request with one reference, for `agent`, answering `requestMessage`. */
    constructor (agent: Agent, requestMessage: nat)
      ensures refCount == 1 && this.agent == agent && this.requestMessage == requestMessage
      ensures message == None && userdata == None && !freeUserdata && pending == None
    {
      refCount := 1;
      this.agent := agent;
      this.requestMessage := requestMessage;
      message := None;
      userdata := None;
      freeUserdata := false;
      pending := None;
    }

    /** `systemd_request_ref`: one more reference to the same request. */
    method Ref() returns (r: SystemdRequest)
      modifies this`refCount
      ensures r == this && refCount == old(refCount) + 1
    {
      refCount := refCount + 1;
      r := this;
    }

    /**
     * `systemd_request_unref`: drops a reference. The last one runs the
     * payload destructor when both payload and destructor are set, unlinks
     * the request and drops its agent reference; any other changes nothing
     * else.
     */
    method Unref()
      requires agent.Valid() && this in agent.outstandingRequests
      modifies this`refCount, agent`outstandingRequests, agent`refCount, agent`freed, agent`holder
      ensures refCount == old(refCount) - 1
      ensures old(refCount) > 1 ==>
        && agent.outstandingRequests == old(agent.outstandingRequests)
        && agent.refCount == old(agent.refCount)
        && agent.freed == old(agent.freed) && agent.holder == old(agent.holder)
      ensures old(refCount) == 1 ==>
        && agent.outstandingRequests == Remove(old(agent.outstandingRequests), this)
        && this !in agent.outstandingRequests
        && agent.refCount == old(agent.refCount) - 1
        && agent.freed == old(agent.freed) + old(Destroyed(userdata, freeUserdata))
      ensures agent.Valid()
    {
      refCount := refCount - 1;
      if refCount != 0 {
        return;
      }
      if userdata.Some? && freeUserdata {
        agent.FreeStartUnitOp(userdata.value);
      }
      RemoveDistinct(agent.outstandingRequests, this);
      var i := IndexOf(agent.outstandingRequests, this);
      agent.outstandingRequests := agent.outstandingRequests[..i] + agent.outstandingRequests[i + 1..];
      var _ := agent.Unref();
      UnlinkKeepsValid();
    }

    /**
     * Unlinking this request, dropping its agent reference and running the
     * destructor on its payload keeps the agent valid.
     */
    twostate lemma UnlinkKeepsValid()
      requires old(agent.Valid()) && old(this in agent.outstandingRequests)
      requires agent.outstandingRequests == Remove(old(agent.outstandingRequests), this)
      requires agent.refCount == old(agent.refCount) - 1
      requires agent.freed == old(agent.freed) + old(Destroyed(userdata, freeUserdata))
      requires agent.holder == if old(userdata).Some? then old(agent.holder)[old(userdata).value := Freed] else old(agent.holder)
      requires unchanged(agent`externalRefs, agent`trackedJobs)
      requires forall r | r in old(agent.outstandingRequests) && r != this :: unchanged(r`refCount, r`userdata, r`freeUserdata)
      ensures agent.Valid()
    {
      var a := agent;
      var h := old(a.holder);
      RemoveDistinct(old(a.outstandingRequests), this);
      assert old(a.Linked(this, a.holder));
      if old(userdata).Some? {
        TrackersRetagged(a, a.trackedJobs, h, old(userdata).value, Freed);
        FreedAppended(old(a.freed), h, old(userdata).value);
      }
      forall r | r in a.outstandingRequests ensures a.Linked(r, a.holder) {
        assert old(a.Linked(r, a.holder));
      }
      forall p | p in a.holder && a.holder[p].HeldByRequest?
        ensures a.holder[p].req in a.outstandingRequests && a.holder[p].req.userdata == Some(p)
      {
        assert h[p] == a.holder[p];
      }
    }

    /**
     * Linking this new request, with no payload, and taking its agent
     * reference keeps the agent valid.
     */
    twostate lemma LinkKeepsValid()
      requires old(agent.Valid()) && this !in old(agent.outstandingRequests)
      requires agent.outstandingRequests == old(agent.outstandingRequests) + [this]
      requires agent.refCount == old(agent.refCount) + 1
      requires refCount == 1 && userdata == None
      requires unchanged(agent`externalRefs, agent`trackedJobs, agent`freed, agent`holder)
      requires forall r | r in old(agent.outstandingRequests) :: unchanged(r`refCount, r`userdata, r`freeUserdata)
      ensures agent.Valid()
    {
      var a := agent;
      DistinctAppend(old(a.outstandingRequests), this);
      forall r | r in a.outstandingRequests ensures a.Linked(r, a.holder) {
        if r != this {
          assert old(a.Linked(r, a.holder));
        }
      }
    }

    /** Adding references to this linked request, touching nothing else the invariant reads, keeps the agent valid. */
    twostate lemma RefKeepsValid()
      requires old(agent.Valid()) && old(this in agent.outstandingRequests)
      requires refCount >= old(refCount) && unchanged(agent) && unchanged(this`userdata, this`freeUserdata)
      requires forall r | r in old(agent.outstandingRequests) && r != this :: unchanged(r`refCount, r`userdata, r`freeUserdata)
      ensures agent.Valid()
    {
      var a := agent;
      forall r | r in a.outstandingRequests ensures a.Linked(r, a.holder) {
        assert old(a.Linked(r, a.holder));
      }
    }

    /**
     * Giving this linked request, which had no payload, a new payload with
     * its destructor keeps the agent valid.
     */
    twostate lemma AttachKeepsValid()
      requires old(agent.Valid()) && old(this in agent.outstandingRequests) && old(userdata) == None
      requires userdata.Some? && userdata.value.agent == agent && freeUserdata
      requires userdata.value !in old(agent.holder)
      requires agent.holder == old(agent.holder)[userdata.value := HeldByRequest(this)]
      requires refCount == old(refCount)
      requires unchanged(agent`refCount, agent`externalRefs, agent`outstandingRequests, agent`trackedJobs, agent`freed)
      requires forall r | r in old(agent.outstandingRequests) && r != this :: unchanged(r`refCount, r`userdata, r`freeUserdata)
      ensures agent.Valid()
    {
      var a := agent;
      var h := old(a.holder);
      TrackersRetagged(a, a.trackedJobs, h, userdata.value, HeldByRequest(this));
      FreedRetagged(a.freed, h, userdata.value, HeldByRequest(this));
      forall r | r in a.outstandingRequests ensures a.Linked(r, a.holder) {
        assert old(a.Linked(r, a.holder));
      }
      forall p | p in a.holder && a.holder[p].HeldByRequest?
        ensures a.holder[p].req in a.outstandingRequests && a.holder[p].req.userdata == Some(p)
      {
        if p != userdata.value {
          assert h[p] == a.holder[p];
        }
      }
    }

    /**
     * Taking the payload out of this linked request and passing it to a
     * holder other than a request keeps the requests' side of the
     * invariant.
     */
    twostate lemma ReleaseKeepsRequestsHold(x: Holder)
      requires old(agent.Valid()) && old(this in agent.outstandingRequests) && old(userdata).Some?
      requires userdata == None && refCount == old(refCount) && !x.HeldByRequest?
      requires agent.holder == old(agent.holder)[old(userdata).value := x]
      requires unchanged(agent`outstandingRequests)
      requires forall r | r in old(agent.outstandingRequests) && r != this :: unchanged(r`refCount, r`userdata, r`freeUserdata)
      ensures agent.RequestsHold(agent.holder)
    {
      var a := agent;
      var h := old(a.holder);
      assert old(a.Linked(this, a.holder));
      forall r | r in a.outstandingRequests ensures a.Linked(r, a.holder) {
        assert old(a.Linked(r, a.holder));
      }
      forall p | p in a.holder && a.holder[p].HeldByRequest?
        ensures a.holder[p].req in a.outstandingRequests && a.holder[p].req.userdata == Some(p)
      {
        assert h[p] == a.holder[p];
      }
    }

    /**
     * Moving this request's payload into a tracker just prepended to
     * `tracked_jobs` keeps the agent valid.
     */
    twostate lemma HandOverKeepsValid()
      requires old(agent.Valid()) && old(this in agent.outstandingRequests) && old(userdata).Some?
      requires userdata == None && refCount == old(refCount)
      requires |agent.trackedJobs| > 0 && agent.trackedJobs[1..] == old(agent.trackedJobs)
      requires agent.trackedJobs[0].userdata == old(userdata) && agent.trackedJobs[0].freeUserdata
      requires agent.holder == old(agent.holder)[old(userdata).value := HeldByTracker]
      requires unchanged(agent`refCount, agent`externalRefs, agent`outstandingRequests, agent`freed)
      requires forall r | r in old(agent.outstandingRequests) && r != this :: unchanged(r`refCount, r`userdata, r`freeUserdata)
      ensures agent.Valid()
    {
      var a := agent;
      assert old(a.Linked(this, a.holder));
      ReleaseKeepsRequestsHold(HeldByTracker);
      TrackPrepended(a, old(a.trackedJobs), old(a.holder), a.trackedJobs[0]);
      assert [a.trackedJobs[0]] + old(a.trackedJobs) == a.trackedJobs;
      FreedRetagged(a.freed, old(a.holder), old(userdata).value, HeldByTracker);
    }

    /**
     * Running the destructor on this request's payload after taking it
     * out of the request keeps the agent valid.
     */
    twostate lemma DropKeepsValid()
      requires old(agent.Valid()) && old(this in agent.outstandingRequests) && old(userdata).Some?
      requires userdata == None && refCount == old(refCount)
      requires agent.freed == old(agent.freed) + [old(userdata).value]
      requires agent.holder == old(agent.holder)[old(userdata).value := Freed]
      requires unchanged(agent`refCount, agent`externalRefs, agent`outstandingRequests, agent`trackedJobs)
      requires forall r | r in old(agent.outstandingRequests) && r != this :: unchanged(r`refCount, r`userdata, r`freeUserdata)
      ensures agent.Valid()
    {
      var a := agent;
      assert old(a.Linked(this, a.holder));
      ReleaseKeepsRequestsHold(Freed);
      TrackersRetagged(a, a.trackedJobs, old(a.holder), old(userdata).value, Freed);
      FreedAppended(old(a.freed), old(a.holder), old(userdata).value);
    }

    /** `systemd_request_set_userdata`. */
    method SetUserdata(op: StartUnitOp, freeUserdata: bool)
      modifies this`userdata, this`freeUserdata
      ensures userdata == Some(op) && this.freeUserdata == freeUserdata
    {
      userdata := Some(op);
      this.freeUserdata := freeUserdata;
    }

    /** `steal_pointer(&req->userdata)`: hands the payload over and leaves none behind. */
    method TakeUserdata() returns (op: Option<StartUnitOp>)
      modifies this`userdata
      ensures op == old(userdata) && userdata == None
    {
      op := userdata;
      userdata := None;
    }

    /**
     * `systemd_request_start`: issues the call asynchronously; on success
     * the pending callback owns one more reference.
     */
    method Start(callback: ReplyCallback, callOk: bool) returns (ok: bool)
      modifies this`refCount, this`pending
      ensures ok == callOk
      ensures ok ==> refCount == old(refCount) + 1 && pending == Some(callback)
      ensures !ok ==> refCount == old(refCount) && pending == old(pending)
    {
      if !callOk {
        return false;
      }
      pending := Some(callback);
      var _ := Ref();
      return true;
    }
  }

  class Agent {
    var refCount: int
    var name: Option<string>
    var host: Option<string>
    var port: uint16
    var outstandingRequests: seq<SystemdRequest>
    var trackedJobs: seq<JobTracker>
    /** The messages sent to the orchestrator, oldest first. */
    var sent: seq<Outgoing>

    /** References held by the agent's owner rather than by requests. */
    ghost var externalRefs: nat
    /** The payloads the destructor has run on, in order. */
    ghost var freed: seq<StartUnitOp>
    /** Every payload ever allocated for this agent, with who is to free it. */
    ghost var holder: map<StartUnitOp, Holder>

    /**
     * Each outstanding request holds one agent reference and is linked
     * once; each payload has exactly one holder: the request or tracker
     * that carries it and will free it, or nobody once the destructor has
     * run on it, which it has done once.
     */
    ghost predicate Valid()
      reads `refCount, `externalRefs, `outstandingRequests, `trackedJobs, `freed, `holder
      reads outstandingRequests`refCount, outstandingRequests`userdata, outstandingRequests`freeUserdata
    {
      && refCount == externalRefs + |outstandingRequests|
      && Distinct(outstandingRequests)
      && RequestsHold(holder)
      && TrackersHold(this, trackedJobs, holder)
      && FreedOnce(freed, holder)
    }

    /**
     * A request of this agent, still referenced, whose payload, if any, it
     * frees and `h` says it holds.
     */
    ghost predicate Linked(r: SystemdRequest, h: map<StartUnitOp, Holder>)
      reads r`refCount, r`userdata, r`freeUserdata
    {
      && r.agent == this && r.refCount >= 1
      && (r.userdata.Some? ==>
            && r.freeUserdata && r.userdata.value.agent == this
            && r.userdata.value in h && h[r.userdata.value] == HeldByRequest(r))
    }

    /**
     * Every outstanding request is linked, and every payload `h` gives to a
     * request is carried by that request, which is outstanding.
     */
    ghost predicate RequestsHold(h: map<StartUnitOp, Holder>)
      reads `outstandingRequests, outstandingRequests`refCount, outstandingRequests`userdata, outstandingRequests`freeUserdata
    {
      && (forall r :: r in outstandingRequests ==> Linked(r, h))
      && (forall p :: p in h && h[p].HeldByRequest? ==> h[p].req in outstandingRequests && h[p].req.userdata == Some(p))
    }

    /**
     * A request owned by its pending reply callback alone, with a payload
     * exactly when the callback is the `StartUnit` one.
     */
    ghost predicate AwaitingReply(r: SystemdRequest)
      reads r`refCount, r`userdata, r`pending
    {
      r.refCount == 1 && r.pending.Some? && (r.pending.value == StartUnitReply <==> r.userdata.Some?)
    }

    /**
     * Between two steps of the event loop: every outstanding request is
     * owned by its pending reply callback alone.
     */
    ghost predicate Quiescent()
      reads `refCount, `externalRefs, `outstandingRequests, `trackedJobs, `freed, `holder
      reads outstandingRequests`refCount, outstandingRequests`userdata, outstandingRequests`freeUserdata, outstandingRequests`pending
    {
      && Valid()
      && forall r :: r in outstandingRequests ==> AwaitingReply(r)
    }

    /**
     * Right after `agent_create_request`: the request just appended to the
     * outstanding requests is referenced only by the handler that created
     * it and has no reply callback yet; every earlier request awaits its
     * reply.
     */
    ghost predicate JustCreated(req: SystemdRequest)
      reads `refCount, `externalRefs, `outstandingRequests, `trackedJobs, `freed, `holder
      reads outstandingRequests`refCount, outstandingRequests`userdata, outstandingRequests`freeUserdata, outstandingRequests`pending
      reads set r | r in outstandingRequests && r != req
    {
      && Valid()
      && |outstandingRequests| > 0 && outstandingRequests[|outstandingRequests| - 1] == req
      && req.agent == this && req.refCount == 1 && req.pending == None
      && OthersAwait(req)
    }

    /** Every outstanding request other than `req` awaits its reply. */
    ghost predicate OthersAwait(req: SystemdRequest)
      reads `outstandingRequests, set r | r in outstandingRequests && r != req
    {
      forall r :: r in outstandingRequests && r != req ==> AwaitingReply(r)
    }

    /** Under the invariant the destructor never runs twice on the same payload. */
    lemma FreedAtMostOnce(p: StartUnitOp)
      requires Valid()
      ensures multiset(freed)[p] <= 1
    {
      DistinctCount(freed, p);
    }

    /**
     * Under the invariant no payload leaks: each one allocated has been
     * freed, or is carried, with its destructor, by an outstanding request
     * or by a tracker.
     */
    lemma PayloadAccounted(p: StartUnitOp)
      requires Valid() && p in holder
      ensures || p in freed
              || (exists r :: r in outstandingRequests && r.userdata == Some(p) && r.freeUserdata)
              || (exists i :: 0 <= i < |trackedJobs| && trackedJobs[i].userdata == Some(p) && trackedJobs[i].freeUserdata)
    {
      match holder[p] {
        case Freed =>
        case HeldByRequest(r) =>
          assert Linked(r, holder);
        case HeldByTracker =>
          var i :| 0 <= i < |trackedJobs| && trackedJobs[i].userdata == Some(p);
          assert Tracks(this, trackedJobs[i], holder);
      }
    }

    /**
     * Under the invariant a payload is carried by one owner at most: by
     * no two requests, and never by both a request and a tracker.
     */
    lemma PayloadHeldOnce(p: StartUnitOp)
      requires Valid()
      ensures forall r1, r2 :: r1 in outstandingRequests && r2 in outstandingRequests && r1.userdata == Some(p) && r2.userdata == Some(p) ==> r1 == r2
      ensures forall r, i :: r in outstandingRequests && 0 <= i < |trackedJobs| && r.userdata == Some(p) ==> trackedJobs[i].userdata != Some(p)
    {
      forall r1, r2 | r1 in outstandingRequests && r2 in outstandingRequests && r1.userdata == Some(p) && r2.userdata == Some(p)
        ensures r1 == r2
      {
        assert Linked(r1, holder) && Linked(r2, holder);
      }
      forall r, i | r in outstandingRequests && 0 <= i < |trackedJobs| && r.userdata == Some(p)
        ensures trackedJobs[i].userdata != Some(p)
      {
        assert Linked(r, holder) && Tracks(this, trackedJobs[i], holder);
      }
    }

    /**
     * A step that keeps the agent valid, links no new request and leaves
     * untouched the requests it keeps, each of which awaited its reply,
     * leaves the agent quiescent.
     */
    twostate lemma StepKeepsQuiescent()
      requires Valid()
      requires forall r | r in outstandingRequests :: r in old(outstandingRequests) && unchanged(r`refCount, r`userdata, r`pending)
      requires forall r | r in outstandingRequests :: old(AwaitingReply(r))
      ensures Quiescent()
    {
      forall r | r in outstandingRequests ensures AwaitingReply(r) {
        assert old(AwaitingReply(r));
      }
    }

    /**
     * A step that gives `req` its reply callback, keeping the agent valid
     * and the other requests, which awaited their replies, untouched,
     * leaves the agent quiescent.
     */
    twostate lemma AwaitingKeepsQuiescent(req: SystemdRequest)
      requires Valid() && outstandingRequests == old(outstandingRequests) && old(OthersAwait(req))
      requires forall r | r in outstandingRequests && r != req :: unchanged(r`refCount, r`userdata, r`pending)
      requires AwaitingReply(req)
      ensures Quiescent()
    {
      forall r | r in outstandingRequests ensures AwaitingReply(r) {
        if r != req {
          assert old(AwaitingReply(r));
        }
      }
    }

    /**
     * Unlinking the tracker at `i` and running the destructor on its
     * payload keeps the agent valid.
     */
    twostate lemma UntrackKeepsValid(i: nat)
      requires old(Valid()) && i < |old(trackedJobs)| && old(trackedJobs)[i].userdata.Some?
      requires trackedJobs == old(trackedJobs)[..i] + old(trackedJobs)[i + 1..]
      requires freed == old(freed) + [old(trackedJobs)[i].userdata.value]
      requires holder == old(holder)[old(trackedJobs)[i].userdata.value := Freed]
      requires unchanged(`refCount, `externalRefs, `outstandingRequests)
      requires forall r | r in outstandingRequests :: unchanged(r`refCount, r`userdata, r`freeUserdata)
      ensures Valid()
    {
      var ts := old(trackedJobs);
      var h := old(holder);
      TrackerRemoved(this, ts, h, i);
      FreedAppended(old(freed), h, ts[i].userdata.value);
      forall r | r in outstandingRequests ensures Linked(r, holder) {
        assert old(Linked(r, holder));
      }
      forall p | p in holder && holder[p].HeldByRequest?
        ensures holder[p].req in outstandingRequests && holder[p].req.userdata == Some(p)
      {
        assert h[p] == holder[p];
      }
    }

    /** The fields `agent_new` sets: one reference, the default port, empty lists. */
    constructor ()
      ensures refCount == 1 && externalRefs == 1
      ensures name == None && host == None && port == HIRTE_DEFAULT_PORT
      ensures outstandingRequests == [] && trackedJobs == [] && sent == []
      ensures freed == [] && holder == map[]
      ensures Quiescent()
    {
      refCount := 1;
      externalRefs := 1;
      name := None;
      host := None;
      port := HIRTE_DEFAULT_PORT;
      outstandingRequests := [];
      trackedJobs := [];
      sent := [];
      freed := [];
      holder := map[];
    }

    /** `agent_new`: fails when the event loop or the service name cannot be obtained. */
    static method New(eventOk: bool, nameDupOk: bool) returns (a: Agent?)
      ensures a == null <==> !(eventOk && nameDupOk)
      ensures a != null ==>
        && fresh(a) && a.refCount == 1 && a.externalRefs == 1
        && a.name == None && a.host == None && a.port == HIRTE_DEFAULT_PORT
        && a.outstandingRequests == [] && a.trackedJobs == [] && a.sent == []
        && a.Quiescent()
    {
      if !eventOk || !nameDupOk {
        return null;
      }
      a := new Agent();
    }

    /** `agent_ref`. */
    method Ref() returns (r: Agent)
      modifies `refCount
      ensures r == this && refCount == old(refCount) + 1
    {
      refCount := refCount + 1;
      r := this;
    }

    /** `agent_unref`: drops a reference; the last one destroys the agent. */
    method Unref() returns (destroyed: bool)
      modifies `refCount
      ensures refCount == old(refCount) - 1
      ensures destroyed <==> refCount == 0
    {
      refCount := refCount - 1;
      destroyed := refCount == 0;
    }

    /** `agent_ref` by the agent's owner rather than by a request. */
    method OwnerRef() returns (r: Agent)
      requires Valid()
      modifies `refCount, `externalRefs
      ensures r == this && refCount == old(refCount) + 1 && externalRefs == old(externalRefs) + 1
      ensures Valid()
    {
      r := Ref();
      externalRefs := externalRefs + 1;
    }

    /**
     * `agent_unref` by the agent's owner. It does not touch the two lists:
     * when it drops the last reference no request is left, and the trackers
     * with their payloads are abandoned as they are.
     */
    method OwnerUnref() returns (destroyed: bool)
      requires Valid() && externalRefs >= 1
      modifies `refCount, `externalRefs
      ensures refCount == old(refCount) - 1 && externalRefs == old(externalRefs) - 1
      ensures destroyed <==> refCount == 0
      ensures destroyed ==> outstandingRequests == []
      ensures Valid()
    {
      destroyed := Unref();
      externalRefs := externalRefs - 1;
    }

    /**
     * Once the last reference is gone no request is outstanding, but the
     * destructor has not run on the payload of any tracker still linked:
     * destroying the agent leaks them.
     */
    lemma TrackersAbandoned()
      requires Valid() && refCount == 0
      ensures outstandingRequests == []
      ensures forall i :: 0 <= i < |trackedJobs| ==> trackedJobs[i].userdata.Some? && trackedJobs[i].userdata.value !in freed
    {
      forall i | 0 <= i < |trackedJobs|
        ensures trackedJobs[i].userdata.Some? && trackedJobs[i].userdata.value !in freed
      {
        assert Tracks(this, trackedJobs[i], holder);
      }
    }

    /** `agent_set_port`: the port changes only when the string parses. */
    method SetPort(portS: string, parsePort: string -> Option<uint16>) returns (ok: bool)
      modifies `port
      ensures ok <==> parsePort(portS).Some?
      ensures port == if ok then parsePort(portS).value else old(port)
    {
      var p := parsePort(portS);
      if p.None? {
        return false;
      }
      port := p.value;
      return true;
    }

    /** `agent_set_host`: the host changes only when the copy can be allocated. */
    method SetHost(host: string, dupOk: bool) returns (ok: bool)
      modifies `host
      ensures ok == dupOk
      ensures this.host == if ok then Some(host) else old(this.host)
    {
      if !dupOk {
        return false;
      }
      this.host := Some(host);
      return true;
    }

    /** `agent_set_name`: the name changes only when the copy can be allocated. */
    method SetName(name: string, dupOk: bool) returns (ok: bool)
      modifies `name
      ensures ok == dupOk
      ensures this.name == if ok then Some(name) else old(this.name)
    {
      if !dupOk {
        return false;
      }
      this.name := Some(name);
      return true;
    }

    /**
     * `agent_parse_config`: an unreadable file fails; without a `Node`
     * topic nothing changes; otherwise `Name`, `Host` and `Port` are applied
     * in that order, and the first setter that fails stops the rest.
     */
    method ParseConfig(config: Option<Ini>, nameDupOk: bool, hostDupOk: bool, parsePort: string -> Option<uint16>)
      returns (ok: bool)
      modifies `name, `host, `port
      ensures config.None? ==> !ok && name == old(name) && host == old(host) && port == old(port)
      ensures config.Some? && "Node" !in config.value ==> ok && name == old(name) && host == old(host) && port == old(port)
      ensures config.Some? && "Node" in config.value ==>
        var node := config.value["Node"];
        var nameFails := "Name" in node && !nameDupOk;
        var hostFails := "Host" in node && !hostDupOk;
        var portFails := "Port" in node && parsePort(node["Port"]).None?;
        && ok == !(nameFails || hostFails || portFails)
        && name == (if "Name" in node && nameDupOk then Some(node["Name"]) else old(name))
        && host == (if !nameFails && "Host" in node && hostDupOk then Some(node["Host"]) else old(host))
        && port == (if !nameFails && !hostFails && "Port" in node && !portFails
                    then parsePort(node["Port"]).value else old(port))
    {
      if config.None? {
        return false;
      }
      if "Node" !in config.value {
        return true;
      }
      var node := config.value["Node"];
      if "Name" in node {
        ok := SetName(node["Name"], nameDupOk);
        if !ok {
          return false;
        }
      }
      if "Host" in node {
        ok := SetHost(node["Host"], hostDupOk);
        if !ok {
          return false;
        }
      }
      if "Port" in node {
        ok := SetPort(node["Port"], parsePort);
        if !ok {
          return false;
        }
      }
      return true;
    }

    /**
     * `agent_create_request`: a new request with one reference, holding an
     * agent reference, appended to the outstanding requests, with the
     * outbound call `member` built. When the call cannot be built the
     * cleanup drops the request again and the result is null.
     */
    method CreateRequest(requestMessage: nat, member: string, allocOk: bool, newCallOk: bool) returns (req: SystemdRequest?)
      requires Quiescent()
      modifies `refCount, `outstandingRequests, `freed, `holder
      ensures req == null <==> !(allocOk && newCallOk)
      ensures req == null ==>
        && Quiescent()
        && outstandingRequests == old(outstandingRequests) && refCount == old(refCount) && freed == old(freed)
      ensures req != null ==>
        && fresh(req) && JustCreated(req) && req.requestMessage == requestMessage
        && req.message == Some(MethodCall(member, [])) && req.userdata == None
        && outstandingRequests == old(outstandingRequests) + [req]
        && refCount == old(refCount) + 1 && freed == old(freed)
    {
      if !allocOk {
        return null;
      }
      req := NewRequest(requestMessage);
      if !newCallOk {
        Discard(req);
        return null;
      }
      req.message := Some(MethodCall(member, []));
    }

    /**
     * The allocation and linking steps of `agent_create_request`: a zeroed
     * request with one reference, holding an agent reference, appended to
     * the outstanding requests.
     */
    method NewRequest(requestMessage: nat) returns (req: SystemdRequest)
      requires Quiescent()
      modifies `refCount, `outstandingRequests
      ensures fresh(req) && JustCreated(req) && req.requestMessage == requestMessage
      ensures req.message == None && req.userdata == None
      ensures outstandingRequests == old(outstandingRequests) + [req] && refCount == old(refCount) + 1
    {
      req := new SystemdRequest(this, requestMessage);
      label Allocated:
      var _ := Ref();
      outstandingRequests := outstandingRequests + [req];
      req.LinkKeepsValid@Allocated();
      assert outstandingRequests[..|outstandingRequests| - 1] == old(outstandingRequests);
    }

    /**
     * The cleanup of a handler that still owns the request it created:
     * dropping that one reference destroys the request with its payload.
     */
    method Discard(req: SystemdRequest)
      requires JustCreated(req)
      modifies `outstandingRequests, `refCount, `freed, `holder, req`refCount
      ensures Quiescent()
      ensures outstandingRequests == old(outstandingRequests)[..|old(outstandingRequests)| - 1]
      ensures refCount == old(refCount) - 1
      ensures freed == old(freed) + old(Destroyed(req.userdata, req.freeUserdata))
    {
      var rs := outstandingRequests;
      assert rs == rs[..|rs| - 1] + [req];
      assert req !in rs[..|rs| - 1] by {
        forall k | 0 <= k < |rs| - 1 ensures rs[k] != req { }
      }
      RemoveAppended(rs[..|rs| - 1], req);
      req.Unref();
      StepKeepsQuiescent();
    }

    /**
     * A handler's failure return after `agent_create_request`: the call is
     * answered with an internal error and the cleanup destroys the request.
     */
    method Abandon(req: SystemdRequest)
      requires JustCreated(req)
      modifies `outstandingRequests, `refCount, `freed, `holder, `sent, req`refCount
      ensures Quiescent()
      ensures outstandingRequests == old(outstandingRequests)[..|old(outstandingRequests)| - 1]
      ensures refCount == old(refCount) - 1
      ensures freed == old(freed) + old(Destroyed(req.userdata, req.freeUserdata))
      ensures sent == old(sent) + [MethodError(req.requestMessage, INTERNAL_ERROR)]
    {
      Send(MethodError(req.requestMessage, INTERNAL_ERROR));
      Discard(req);
    }

    /**
     * `systemd_request_start` at the end of a handler, with the failure
     * return and the cleanup: on success the request stays registered,
     * owned by its reply callback alone; on failure the call is answered
     * with an internal error and the request is destroyed.
     */
    method Launch(req: SystemdRequest, callback: ReplyCallback, callOk: bool) returns (ok: bool)
      requires JustCreated(req) && (callback == StartUnitReply <==> req.userdata.Some?)
      modifies `outstandingRequests, `refCount, `freed, `holder, `sent, req`refCount, req`pending
      ensures Quiescent() && ok == callOk
      ensures ok ==>
        && req.refCount == 1 && req.pending == Some(callback)
        && outstandingRequests == old(outstandingRequests) && refCount == old(refCount)
        && freed == old(freed) && sent == old(sent)
      ensures !ok ==>
        && outstandingRequests == old(outstandingRequests)[..|old(outstandingRequests)| - 1]
        && refCount == old(refCount) - 1
        && freed == old(freed) + old(Destroyed(req.userdata, req.freeUserdata))
        && sent == old(sent) + [MethodError(req.requestMessage, INTERNAL_ERROR)]
    {
      ok := req.Start(callback, callOk);
      if !ok {
        Abandon(req);
        return;
      }
      req.RefKeepsValid();
      req.Unref();
      AwaitingKeepsQuiescent(req);
    }

    /**
     * `agent_method_list_units`: forwards the call to the service manager.
     * When the request cannot be created or started, replies with an
     * internal error and leaves no request behind; otherwise the request
     * stays registered, owned by its pending reply callback alone.
     */
    method MethodListUnits(call: nat, allocOk: bool, newCallOk: bool, callOk: bool) returns (registered: SystemdRequest?)
      requires Quiescent()
      modifies `refCount, `outstandingRequests, `freed, `holder, `sent
      ensures Quiescent()
      ensures registered != null <==> allocOk && newCallOk && callOk
      ensures freed == old(freed)
      ensures registered == null ==>
        && outstandingRequests == old(outstandingRequests) && refCount == old(refCount)
        && sent == old(sent) + [MethodError(call, INTERNAL_ERROR)]
      ensures registered != null ==>
        && fresh(registered) && registered.requestMessage == call
        && registered.message == Some(MethodCall(LIST_UNITS, []))
        && registered.pending == Some(ListUnitsReply) && registered.refCount == 1
        && outstandingRequests == old(outstandingRequests) + [registered]
        && refCount == old(refCount) + 1 && sent == old(sent)
    {
      var req := CreateRequest(call, LIST_UNITS, allocOk, newCallOk);
      if req == null {
        Send(MethodError(call, INTERNAL_ERROR));
        return null;
      }
      var ok := Launch(req, ListUnitsReply, callOk);
      registered := if ok then req else null;
    }

    /**
     * The cleanup of a reply callback: dropping the reference the callback
     * owned, the last one, destroys the request with its payload, if it
     * still holds one.
     */
    method ReleaseCallbackRef(req: SystemdRequest)
      requires Valid() && req in outstandingRequests && req.refCount == 1 && OthersAwait(req)
      modifies `outstandingRequests, `refCount, `freed, `holder, req`refCount
      ensures Quiescent()
      ensures outstandingRequests == Remove(old(outstandingRequests), req) && refCount == old(refCount) - 1
      ensures freed == old(freed) + old(Destroyed(req.userdata, req.freeUserdata))
    {
      assert Linked(req, holder);
      RemoveDistinct(outstandingRequests, req);
      req.Unref();
      StepKeepsQuiescent();
    }

    /**
     * `list_units_callback`: a method error from the service manager is
     * forwarded unchanged as the reply to the orchestrator's call;
     * otherwise the reply body is copied into a method return, and when
     * that cannot be built nothing is sent. Either way the callback's
     * reference is dropped, which destroys the request.
     */
    method ListUnitsCallback(req: SystemdRequest, m: Reply, newReturnOk: bool, copyOk: bool)
      requires Quiescent() && req in outstandingRequests && req.pending == Some(ListUnitsReply)
      modifies `outstandingRequests, `refCount, `freed, `holder, `sent, req`refCount
      ensures Quiescent()
      ensures outstandingRequests == Remove(old(outstandingRequests), req) && refCount == old(refCount) - 1
      ensures freed == old(freed) && trackedJobs == old(trackedJobs)
      ensures sent == old(sent) + match m {
        case ErrorReply(e) => [MethodError(req.requestMessage, e)]
        case ReturnReply(body) => if newReturnOk && copyOk then [MethodReturn(req.requestMessage, body)] else []
      }
    {
      assert AwaitingReply(req) && OthersAwait(req);
      match m {
        case ErrorReply(e) =>
          Send(MethodError(req.requestMessage, e));
        case ReturnReply(body) =>
          if newReturnOk && copyOk {
            Send(MethodReturn(req.requestMessage, body));
          }
      }
      ReleaseCallbackRef(req);
    }

    /**
     * The `StartUnitOp` allocation and `systemd_request_set_userdata` of
     * `agent_method_start_unit`: the request now holds a new payload for
     * this agent, freed with the request.
     */
    method AttachStartUnitOp(req: SystemdRequest, jobId: uint32) returns (op: StartUnitOp)
      requires JustCreated(req) && req.userdata == None
      modifies `holder, req`userdata, req`freeUserdata
      ensures JustCreated(req) && fresh(op) && op.agent == this && op.hirteJobId == jobId
      ensures req.userdata == Some(op) && req.freeUserdata
    {
      op := new StartUnitOp(this, jobId);
      label Allocated:
      req.SetUserdata(op, true);
      holder := holder[op := HeldByRequest(req)];
      req.AttachKeepsValid@Allocated();
    }

    /**
     * `agent_method_start_unit`: arguments that are not `ssu` are refused
     * with invalid arguments before anything is created. Otherwise the call
     * is forwarded with a payload carrying the orchestrator's job id; when a
     * step fails the reply is an internal error and the cleanup destroys
     * the request, running the destructor on the payload if one was made.
     */
    method MethodStartUnit(call: nat, args: ReadResult<(string, string, uint32)>,
                           allocOk: bool, newCallOk: bool, opAllocOk: bool, appendOk: bool, callOk: bool)
      returns (registered: SystemdRequest?)
      requires Quiescent()
      modifies `refCount, `outstandingRequests, `freed, `holder, `sent
      ensures Quiescent()
      ensures registered != null <==> args.Read? && allocOk && newCallOk && opAllocOk && appendOk && callOk
      ensures registered == null ==> outstandingRequests == old(outstandingRequests) && refCount == old(refCount)
      ensures args.ReadError? ==>
        freed == old(freed) && sent == old(sent) + [MethodError(call, INVALID_ARGUMENTS)]
      ensures args.Read? && registered == null ==>
        && sent == old(sent) + [MethodError(call, INTERNAL_ERROR)]
        && (if allocOk && newCallOk && opAllocOk
            then && |freed| == |old(freed)| + 1 && freed[..|old(freed)|] == old(freed)
                 && fresh(freed[|old(freed)|]) && freed[|old(freed)|].hirteJobId == args.value.2
            else freed == old(freed))
      ensures registered != null ==>
        && fresh(registered) && registered.requestMessage == call
        && registered.message == Some(MethodCall(START_UNIT, [args.value.0, args.value.1]))
        && registered.pending == Some(StartUnitReply) && registered.refCount == 1
        && registered.userdata.Some? && registered.freeUserdata
        && fresh(registered.userdata.value) && registered.userdata.value.hirteJobId == args.value.2
        && outstandingRequests == old(outstandingRequests) + [registered]
        && refCount == old(refCount) + 1 && freed == old(freed) && sent == old(sent)
    {
      if args.ReadError? {
        Send(MethodError(call, INVALID_ARGUMENTS));
        return null;
      }
      var (name, mode, jobId) := args.value;
      var req := CreateRequest(call, START_UNIT, allocOk, newCallOk);
      if req == null {
        Send(MethodError(call, INTERNAL_ERROR));
        return null;
      }
      var ok := ForwardStartUnit(req, name, mode, jobId, opAllocOk, appendOk, callOk);
      registered := if ok then req else null;
    }

    /**
     * The steps of `agent_method_start_unit` after the request exists: the
     * payload is allocated and attached, the unit name and mode are
     * appended to the call, and the call is started. When a step fails the
     * call is answered with an internal error and the request is destroyed
     * with the payload, if one was attached.
     */
    method ForwardStartUnit(req: SystemdRequest, name: string, mode: string, jobId: uint32,
                            opAllocOk: bool, appendOk: bool, callOk: bool) returns (ok: bool)
      requires JustCreated(req) && req.userdata == None && req.message == Some(MethodCall(START_UNIT, []))
      modifies `outstandingRequests, `refCount, `freed, `holder, `sent
      modifies req`refCount, req`pending, req`userdata, req`freeUserdata, req`message
      ensures Quiescent()
      ensures ok == (opAllocOk && appendOk && callOk)
      ensures ok ==>
        && req.message == Some(MethodCall(START_UNIT, [name, mode]))
        && req.pending == Some(StartUnitReply) && req.refCount == 1
        && req.userdata.Some? && req.freeUserdata
        && fresh(req.userdata.value) && req.userdata.value.hirteJobId == jobId
        && outstandingRequests == old(outstandingRequests) && refCount == old(refCount)
        && freed == old(freed) && sent == old(sent)
      ensures !ok ==>
        && outstandingRequests == old(outstandingRequests)[..|old(outstandingRequests)| - 1]
        && refCount == old(refCount) - 1
        && sent == old(sent) + [MethodError(req.requestMessage, INTERNAL_ERROR)]
        && (if opAllocOk
            then && |freed| == |old(freed)| + 1 && freed[..|old(freed)|] == old(freed)
                 && fresh(freed[|old(freed)|]) && freed[|old(freed)|].hirteJobId == jobId
            else freed == old(freed))
    {
      if !opAllocOk {
        Abandon(req);
        return false;
      }
      var op := AttachStartUnitOp(req, jobId);
      if !appendOk {
        Abandon(req);
        return false;
      }
      assert req.message.value.args + [name, mode] == [name, mode];
      req.message := Some(MethodCall(START_UNIT, req.message.value.args + [name, mode]));
      ok := Launch(req, StartUnitReply, callOk);
    }

    /**
     * `start_unit_callback`: answers the call as `AnswerStartUnit` says,
     * then drops the callback's reference, which destroys the request and,
     * if it still holds the payload, frees that.
     */
    method StartUnitCallback(req: SystemdRequest, m: Reply, jobPath: ReadResult<string>, trackAllocOk: bool, dupOk: bool)
      requires Quiescent() && req in outstandingRequests && req.pending == Some(StartUnitReply)
      modifies `outstandingRequests, `refCount, `trackedJobs, `freed, `holder, `sent, req`refCount, req`userdata
      ensures Quiescent()
      ensures outstandingRequests == Remove(old(outstandingRequests), req) && refCount == old(refCount) - 1
      ensures old(req.userdata).Some?
      ensures m.ErrorReply? ==>
        && trackedJobs == old(trackedJobs) && freed == old(freed) + [old(req.userdata).value]
        && sent == old(sent) + [MethodError(req.requestMessage, m.error)]
      ensures m.ReturnReply? && jobPath.ReadError? ==>
        && trackedJobs == old(trackedJobs) && freed == old(freed) + [old(req.userdata).value]
        && sent == old(sent) + [MethodError(req.requestMessage, INTERNAL_ERROR_CAPITALISED)]
      ensures m.ReturnReply? && jobPath.Read? && trackAllocOk && dupOk ==>
        && trackedJobs == [JobTracker(jobPath.value, EmitJobDone, old(req.userdata), true)] + old(trackedJobs)
        && freed == old(freed)
        && sent == old(sent) + [MethodReturn(req.requestMessage, [])]
      ensures m.ReturnReply? && jobPath.Read? && !(trackAllocOk && dupOk) ==>
        && trackedJobs == old(trackedJobs) && freed == old(freed) + [old(req.userdata).value]
        && sent == old(sent) + [MethodError(req.requestMessage, INTERNAL_ERROR_CAPITALISED)]
    {
      assert AwaitingReply(req) && OthersAwait(req);
      AnswerStartUnit(req, m, jobPath, trackAllocOk, dupOk);
      ReleaseCallbackRef(req);
    }

    /**
     * `start_unit_callback` before its cleanup: a method error is forwarded
     * unchanged and a reply without a job path is answered with an internal
     * error, both leaving the payload in the request; otherwise the job is
     * tracked as `TrackStartedJob` says.
     */
    method AnswerStartUnit(req: SystemdRequest, m: Reply, jobPath: ReadResult<string>, trackAllocOk: bool, dupOk: bool)
      requires Valid() && req in outstandingRequests && req.userdata.Some?
      modifies `trackedJobs, `freed, `holder, `sent, req`userdata
      ensures Valid()
      ensures m.ErrorReply? || jobPath.ReadError? ==>
        && req.userdata == old(req.userdata) && trackedJobs == old(trackedJobs) && freed == old(freed)
        && sent == old(sent) + [MethodError(req.requestMessage, if m.ErrorReply? then m.error else INTERNAL_ERROR_CAPITALISED)]
      ensures m.ReturnReply? && jobPath.Read? && trackAllocOk && dupOk ==>
        && req.userdata == None
        && trackedJobs == [JobTracker(jobPath.value, EmitJobDone, old(req.userdata), true)] + old(trackedJobs)
        && freed == old(freed)
        && sent == old(sent) + [MethodReturn(req.requestMessage, [])]
      ensures m.ReturnReply? && jobPath.Read? && !(trackAllocOk && dupOk) ==>
        && req.userdata == None
        && trackedJobs == old(trackedJobs) && freed == old(freed) + [old(req.userdata).value]
        && sent == old(sent) + [MethodError(req.requestMessage, INTERNAL_ERROR_CAPITALISED)]
    {
      if m.ErrorReply? || jobPath.ReadError? {
        Send(MethodError(req.requestMessage, if m.ErrorReply? then m.error else INTERNAL_ERROR_CAPITALISED));
      } else {
        TrackStartedJob(req, jobPath.value, trackAllocOk, dupOk);
      }
    }

    /**
     * The last steps of `start_unit_callback`: the payload is taken out of
     * the request and handed to a new tracker for the job, and the call is
     * answered with an empty return; when the tracker cannot be made the
     * payload is freed here instead and the answer is an internal error.
     */
    method TrackStartedJob(req: SystemdRequest, jobObjectPath: string, trackAllocOk: bool, dupOk: bool)
      requires Valid() && req in outstandingRequests && req.userdata.Some?
      modifies `trackedJobs, `freed, `holder, `sent, req`userdata
      ensures Valid() && req.userdata == None
      ensures trackAllocOk && dupOk ==>
        && trackedJobs == [JobTracker(jobObjectPath, EmitJobDone, old(req.userdata), true)] + old(trackedJobs)
        && freed == old(freed)
        && sent == old(sent) + [MethodReturn(req.requestMessage, [])]
      ensures !(trackAllocOk && dupOk) ==>
        && trackedJobs == old(trackedJobs) && freed == old(freed) + [old(req.userdata).value]
        && sent == old(sent) + [MethodError(req.requestMessage, INTERNAL_ERROR_CAPITALISED)]
    {
      var op := req.TakeUserdata();
      var tracked := TrackJob(jobObjectPath, EmitJobDone, op, true, trackAllocOk, dupOk);
      if tracked {
        holder := holder[op.value := HeldByTracker];
        req.HandOverKeepsValid();
        Send(MethodReturn(req.requestMessage, []));
      } else {
        FreeStartUnitOp(op.value);
        req.DropKeepsValid();
        Send(MethodError(req.requestMessage, INTERNAL_ERROR_CAPITALISED));
      }
    }

    /**
     * `agent_track_job`: prepends a tracker for the job with its callback
     * and payload. When the tracker or the copy of the path cannot be
     * allocated nothing is linked and, the payload not having been stored
     * yet, nothing is freed.
     */
    method TrackJob(jobObjectPath: string, callback: JobCallback, userdata: Option<StartUnitOp>, freeUserdata: bool,
                    allocOk: bool, dupOk: bool) returns (ok: bool)
      modifies `trackedJobs
      ensures ok == (allocOk && dupOk)
      ensures trackedJobs == if ok then [JobTracker(jobObjectPath, callback, userdata, freeUserdata)] + old(trackedJobs)
                             else old(trackedJobs)
    {
      if !allocOk || !dupOk {
        return false;
      }
      trackedJobs := [JobTracker(jobObjectPath, callback, userdata, freeUserdata)] + trackedJobs;
      return true;
    }

    /**
     * `agent_match_job_removed`: an event that cannot be read is refused
     * with its error number; otherwise the first tracker waiting for the
     * event's job is unlinked, its callback runs once with the job's
     * result, and it is freed with its payload. An event no tracker waits
     * for changes nothing.
     */
    method MatchJobRemoved(m: ReadResult<JobRemovedEvent>, emitOk: bool) returns (r: int)
      requires Quiescent()
      modifies `trackedJobs, `freed, `holder, `sent
      ensures Quiescent()
      ensures m.ReadError? ==>
        r == m.errno && trackedJobs == old(trackedJobs) && freed == old(freed) && sent == old(sent)
      ensures m.Read? ==> r == 0
      ensures m.Read? && FirstMatch(old(trackedJobs), m.value.jobPath).None? ==>
        trackedJobs == old(trackedJobs) && freed == old(freed) && sent == old(sent)
      ensures m.Read? && FirstMatch(old(trackedJobs), m.value.jobPath).Some? ==>
        var i := FirstMatch(old(trackedJobs), m.value.jobPath).value;
        var op := old(trackedJobs)[i].userdata.value;
        && trackedJobs == old(trackedJobs)[..i] + old(trackedJobs)[i + 1..]
        && freed == old(freed) + [op]
        && sent == old(sent) + (if emitOk then [JobDone(op.hirteJobId, m.value.result)] else [])
    {
      if m.ReadError? {
        return m.errno;
      }
      var ev := m.value;
      var i := 0;
      while i < |trackedJobs| && trackedJobs[i].jobObjectPath != ev.jobPath
        invariant i <= |trackedJobs| && NoMatchBefore(trackedJobs, ev.jobPath, i)
      {
        i := i + 1;
      }
      FirstMatchAt(trackedJobs, ev.jobPath, i);
      if i < |trackedJobs| {
        FireTracker(i, ev.result, emitOk);
      }
      return 0;
    }

    /**
     * The matching branch of `agent_match_job_removed`: the tracker at `i`
     * is unlinked, its callback runs once with the job's result, and it is
     * freed with its payload.
     */
    method FireTracker(i: nat, result: string, emitOk: bool)
      requires Quiescent() && i < |trackedJobs|
      modifies `trackedJobs, `freed, `holder, `sent
      ensures Quiescent()
      ensures old(trackedJobs)[i].userdata.Some?
      ensures trackedJobs == old(trackedJobs)[..i] + old(trackedJobs)[i + 1..]
      ensures freed == old(freed) + [old(trackedJobs)[i].userdata.value]
      ensures sent == old(sent) + (if emitOk then [JobDone(old(trackedJobs)[i].userdata.value.hirteJobId, result)] else [])
    {
      var t := trackedJobs[i];
      assert Tracks(this, t, holder);
      trackedJobs := trackedJobs[..i] + trackedJobs[i + 1..];
      match t.callback {
        case EmitJobDone => StartUnitJobDone(result, t.userdata.value, emitOk);
      }
      JobTrackerFree(t);
      UntrackKeepsValid(i);
      StepKeepsQuiescent();
    }

    /** Sends `m` to the orchestrator; the bookkeeping is not touched. */
    method Send(m: Outgoing)
      modifies `sent
      ensures sent == old(sent) + [m]
      ensures old(Valid()) ==> Valid()
      ensures old(Quiescent()) ==> Quiescent()
    {
      sent := sent + [m];
    }

    /** `start_unit_op_free`: the destructor runs on `op`, which nobody holds any more. */
    method FreeStartUnitOp(op: StartUnitOp)
      modifies `freed, `holder
      ensures freed == old(freed) + [op] && holder == old(holder)[op := Freed]
    {
      freed := freed + [op];
      holder := holder[op := Freed];
    }

    /** `job_tracker_free`: runs the destructor when both payload and destructor are set. */
    method JobTrackerFree(t: JobTracker)
      modifies `freed, `holder
      ensures freed == old(freed) + Destroyed(t.userdata, t.freeUserdata)
      ensures holder == if t.userdata.Some? && t.freeUserdata then old(holder)[t.userdata.value := Freed] else old(holder)
    {
      if t.userdata.Some? && t.freeUserdata {
        FreeStartUnitOp(t.userdata.value);
      }
    }
  }
}
