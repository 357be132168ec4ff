/** The access-controlled RPC service of hw7_microservice: the ACL matcher,
    the two subscriber registries (log listeners and statistics windows),
    the admit/deny decision of the two interceptors with the order of their
    effects, and one step of each administrative stream.

    Channels are modelled as per-listener inbox sequences: an unbuffered
    `chan *Event` becomes the sequence of events sent to it and not yet
    taken by its receiver. The gRPC transport, the goroutines, the locks and
    the clock are not modelled; timestamps and the peer address are inputs. */
module Microservice {
  import opened Text

  // ---------------------------------------------------------------------
  // Access control

  /** The ACL: consumer name -> its method patterns, in configuration order. */
  type Acl = map<string, seq<string>>

  /** One ACL pattern admits a method: an exact match, or a pattern ending in
      `*` whose text without that one `*` is a prefix of the method. */
  predicate PatternAllows(pattern: string, methodName: string) {
    methodName == pattern
    || (HasSuffix(pattern, "*") && HasPrefix(methodName, pattern[..|pattern| - 1]))
  }

  /** The body of the `for` loop of hasAccess, with its early returns. */
  function AnyPatternAllows(patterns: seq<string>, methodName: string): (allowed: bool)
    ensures allowed <==> exists k :: 0 <= k < |patterns| && PatternAllows(patterns[k], methodName)
    decreases |patterns|
  {
    if |patterns| == 0 then false
    else if methodName == patterns[0] then true
    else if HasSuffix(patterns[0], "*") && HasPrefix(methodName, patterns[0][..|patterns[0]| - 1]) then true
    else AnyPatternAllows(patterns[1..], methodName)
  }

  /** hasAccess: an unknown consumer is denied; a known one is admitted iff
      one of its patterns admits the method. */
  function HasAccess(acl: Acl, consumerName: string, methodName: string): (allowed: bool)
    ensures consumerName !in acl ==> !allowed
    ensures allowed <==> consumerName in acl
                         && exists k :: 0 <= k < |acl[consumerName]|
                                        && PatternAllows(acl[consumerName][k], methodName)
  {
    consumerName in acl && AnyPatternAllows(acl[consumerName], methodName)
  }

  /** A wildcard pattern admits every method that extends its prefix. */
  lemma WildcardAdmitsExtensions(acl: Acl, consumerName: string, prefix: string, suffix: string)
    requires consumerName in acl && prefix + "*" in acl[consumerName]
    ensures HasAccess(acl, consumerName, prefix + suffix)
  {
    var patterns := acl[consumerName];
    var k :| 0 <= k < |patterns| && patterns[k] == prefix + "*";
    var p := patterns[k];
    assert p[..|p| - 1] == prefix;
    assert (prefix + suffix)[..|prefix|] == prefix;
    assert PatternAllows(patterns[k], prefix + suffix);
  }

  /** One ACL with an exact pattern and a wildcard pattern: a method covered
      by neither is denied, and so is a consumer the ACL does not list. */
  lemma AccessScenario()
    ensures var acl: Acl := map["svc_a" := ["pkg.Biz/Check", "pkg.Admin/*"]];
      && HasAccess(acl, "svc_a", "pkg.Biz/Check")
      && !HasAccess(acl, "svc_a", "pkg.Biz/Add")
      && HasAccess(acl, "svc_a", "pkg.Admin/Logging")
      && !HasAccess(acl, "svc_z", "pkg.Biz/Check")
  {
    var acl: Acl := map["svc_a" := ["pkg.Biz/Check", "pkg.Admin/*"]];
    assert "pkg.Admin/" + "*" == acl["svc_a"][1];
    assert "pkg.Admin/" + "Logging" == "pkg.Admin/Logging";
    WildcardAdmitsExtensions(acl, "svc_a", "pkg.Admin/", "Logging");
    var ps := acl["svc_a"];
    assert !PatternAllows(ps[0], "pkg.Biz/Add") by {
      assert "pkg.Biz/Add"[8] != "pkg.Biz/Check"[8];
    }
    assert !PatternAllows(ps[1], "pkg.Biz/Add") by {
      assert "pkg.Biz/Add"[4] != "pkg.Admin/"[4];
    }
  }

  // ---------------------------------------------------------------------
  // Statistics windows

  /** The counters of a Stat message are uint64. */
  newtype uint64 = x: int | 0 <= x < 0x1_0000_0000_0000_0000

  /** `n++` on a uint64: wraps to zero past the maximum. */
  function Inc(n: uint64): (r: uint64)
    ensures n < 0xFFFF_FFFF_FFFF_FFFF ==> r as int == n as int + 1
    ensures n == 0xFFFF_FFFF_FFFF_FFFF ==> r == 0
  {
    if n == 0xFFFF_FFFF_FFFF_FFFF then 0 else n + 1
  }

  /** Reading a Go map yields the zero value for an absent key. */
  function Lookup(m: map<string, uint64>, key: string): uint64 {
    if key in m then m[key] else 0
  }

  /** `m[key]++` on a Go map. */
  function Bump(m: map<string, uint64>, key: string): (r: map<string, uint64>)
    ensures r.Keys == m.Keys + {key}
    ensures r[key] == Inc(Lookup(m, key))
    ensures forall k :: k in m && k != key ==> r[k] == m[k]
  {
    m[key := Inc(Lookup(m, key))]
  }

  /** A Stat message: the window of one Statistics subscriber. Windows kept
      in the registry carry timestamp 0; getStat stamps the copy it returns. */
  datatype Stat = Stat(timestamp: int, byMethod: map<string, uint64>, byConsumer: map<string, uint64>)

  /** The freshly made window of registerStatClient and resetStat. */
  const EmptyStat := Stat(0, map[], map[])

  /** One invocation counted in one window, as the body of addInvocation's
      loop does: only the two named counters move, by one each. */
  function Record(w: Stat, methodName: string, consumerName: string): (r: Stat)
    ensures r.timestamp == w.timestamp
    ensures r.byMethod.Keys == w.byMethod.Keys + {methodName}
    ensures r.byConsumer.Keys == w.byConsumer.Keys + {consumerName}
    ensures r.byMethod[methodName] == Inc(Lookup(w.byMethod, methodName))
    ensures r.byConsumer[consumerName] == Inc(Lookup(w.byConsumer, consumerName))
    ensures forall k :: k in w.byMethod && k != methodName ==> r.byMethod[k] == w.byMethod[k]
    ensures forall k :: k in w.byConsumer && k != consumerName ==> r.byConsumer[k] == w.byConsumer[k]
  {
    Stat(w.timestamp, Bump(w.byMethod, methodName), Bump(w.byConsumer, consumerName))
  }

  /** Recording invocations one after another into an empty window counts
      each method and each consumer by its number of occurrences. */
  function RecordAll(w: Stat, calls: seq<(string, string)>): Stat
    decreases |calls|
  {
    if |calls| == 0 then w
    else RecordAll(Record(w, calls[0].0, calls[0].1), calls[1..])
  }

  function CountMethod(calls: seq<(string, string)>, methodName: string): nat
    decreases |calls|
  {
    if |calls| == 0 then 0
    else (if calls[0].0 == methodName then 1 else 0) + CountMethod(calls[1..], methodName)
  }

  function CountConsumer(calls: seq<(string, string)>, consumerName: string): nat
    decreases |calls|
  {
    if |calls| == 0 then 0
    else (if calls[0].1 == consumerName then 1 else 0) + CountConsumer(calls[1..], consumerName)
  }

  /** A window reports, per key, how many recorded calls since its last
      reset carried that method or consumer (below the uint64 limit). */
  lemma {:induction false} RecordAllCounts(w: Stat, calls: seq<(string, string)>, methodName: string, consumerName: string)
    requires Lookup(w.byMethod, methodName) as int + |calls| < 0xFFFF_FFFF_FFFF_FFFF
    requires Lookup(w.byConsumer, consumerName) as int + |calls| < 0xFFFF_FFFF_FFFF_FFFF
    ensures Lookup(RecordAll(w, calls).byMethod, methodName) as int
            == Lookup(w.byMethod, methodName) as int + CountMethod(calls, methodName)
    ensures Lookup(RecordAll(w, calls).byConsumer, consumerName) as int
            == Lookup(w.byConsumer, consumerName) as int + CountConsumer(calls, consumerName)
    decreases |calls|
  {
    if |calls| > 0 {
      var w' := Record(w, calls[0].0, calls[0].1);
      assert Lookup(w'.byMethod, methodName) as int
             == Lookup(w.byMethod, methodName) as int + (if calls[0].0 == methodName then 1 else 0);
      assert Lookup(w'.byConsumer, consumerName) as int
             == Lookup(w.byConsumer, consumerName) as int + (if calls[0].1 == consumerName then 1 else 0);
      RecordAllCounts(w', calls[1..], methodName, consumerName);
    }
  }

  // ---------------------------------------------------------------------
  // Interceptors

  /** A log event, as logEvent broadcasts it. */
  datatype Event = Event(timestamp: int, consumer: string, fullMethod: string, host: string)

  /** Incoming gRPC metadata: key -> values. */
  type Metadata = map<string, seq<string>>

  /** The interceptors' decision. Crash is the index panic on `consumer[0]`
      when the key is present with no value. */
  datatype Admission = Admit(consumer: string) | Deny | Crash

  function Decide(acl: Acl, md: Metadata, fullMethod: string): (a: Admission)
    ensures a.Admit? <==> "consumer" in md && |md["consumer"]| > 0
                          && HasAccess(acl, md["consumer"][0], fullMethod)
    ensures a.Admit? ==> a.consumer == md["consumer"][0]
    ensures a.Crash? <==> "consumer" in md && |md["consumer"]| == 0
  {
    if "consumer" !in md then Deny
    else if |md["consumer"]| == 0 then Crash
    else if !HasAccess(acl, md["consumer"][0], fullMethod) then Deny
    else Admit(md["consumer"][0])
  }

  /** The observable steps of an intercepted call, in the order they happen. */
  datatype Effect = StatsRecorded | EventLogged | HandlerRun

  /** What an intercepted call returns to the client. */
  datatype CallError = Unauthenticated(message: string) | Panic | HandlerError(message: string)

  const DenyMessage := "No consumer information in request"

  /** Outcome of a unary handler: a reply or an error (both may be set). */
  datatype Reply = Reply(value: string)

  // ---------------------------------------------------------------------
  // The service object

  class Service {
    /** The ACL, decoded once at start and never changed. */
    const AclData: Acl
    /** Registered log listeners: id -> inbox of their channel. */
    var LogListeners: map<int, seq<Event>>
    var LogCount: int
    var StatCount: int
    /** Registered statistics subscribers: id -> current window. */
    var Stat: map<int, Stat>
    /** The listener ids whose Logging loop is still receiving from its
        channel (a goroutine, not a field of the source). */
    ghost var Draining: set<int>
    /** The steps of intercepted calls so far, in the order they happened. */
    ghost var History: seq<Effect>

    /** Ids are handed out by pre-increment, so every registered id lies in
        1..count; this is what makes fresh ids unused. */
    ghost predicate Valid()
      reads this
    {
      && LogCount >= 0 && StatCount >= 0
      && (forall id :: id in LogListeners ==> 1 <= id <= LogCount)
      && (forall id :: id in Stat ==> 1 <= id <= StatCount)
    }

    /** Every registered listener has a running Logging loop receiving from
        it. Without it, logEvent's send on that unbuffered channel would
        block forever, and with it every later authorised call. */
    ghost predicate NoOrphans()
      reads this
    {
      LogListeners.Keys <= Draining
    }

    /** newService with the decoded ACL. */
    constructor (acl: Acl)
      ensures Valid() && NoOrphans()
      ensures AclData == acl
      ensures LogListeners == map[] && Stat == map[] && LogCount == 0 && StatCount == 0
      ensures Draining == {} && History == []
    {
      AclData := acl;
      LogListeners := map[];
      LogCount := 0;
      StatCount := 0;
      Stat := map[];
      Draining := {};
      History := [];
    }

    /** registerLogClient: the new id is one more than the last one, no
        listener had it, it gets an empty inbox, and nothing else changes. */
    method RegisterLogClient() returns (id: int)
      requires Valid()
      modifies this
      ensures History == old(History)
      ensures Valid()
      ensures id == old(LogCount) + 1 && LogCount == id
      ensures forall other :: other in old(LogListeners) ==> other < id
      ensures id !in old(LogListeners)
      ensures LogListeners == old(LogListeners)[id := []]
      ensures Stat == old(Stat) && StatCount == old(StatCount) && Draining == old(Draining)
    {
      LogCount := LogCount + 1;
      LogListeners := LogListeners[LogCount := []];
      id := LogCount;
    }

    /** logEvent: the event is appended to the inbox of every listener
        registered now, and of no other. */
    method LogEvent(event: Event)
      requires Valid()
      modifies this
      ensures Valid()
      ensures LogListeners.Keys == old(LogListeners).Keys
      ensures forall id :: id in LogListeners ==> LogListeners[id] == old(LogListeners)[id] + [event]
      ensures LogCount == old(LogCount) && Stat == old(Stat) && StatCount == old(StatCount)
      ensures Draining == old(Draining)
      ensures History == old(History) + [EventLogged]
    {
      History := History + [EventLogged];
      var pending := LogListeners.Keys;
      while pending != {}
        invariant pending <= LogListeners.Keys
        invariant LogListeners.Keys == old(LogListeners).Keys
        invariant forall id :: id in LogListeners && id !in pending ==>
                    LogListeners[id] == old(LogListeners)[id] + [event]
        invariant forall id :: id in pending ==> LogListeners[id] == old(LogListeners)[id]
        invariant LogCount == old(LogCount) && Stat == old(Stat) && StatCount == old(StatCount)
        invariant Draining == old(Draining) && History == old(History) + [EventLogged]
        decreases pending
      {
        NonEmptyHasElement(pending);
        var id :| id in pending;
        LogListeners := LogListeners[id := LogListeners[id] + [event]];
        pending := pending - {id};
      }
    }

    /** unsubscribeLogClient: removes that id only; a no-op when absent. */
    method UnsubscribeLogClient(clientId: int)
      requires Valid()
      modifies this
      ensures History == old(History)
      ensures Valid()
      ensures LogListeners == old(LogListeners) - {clientId}
      ensures clientId !in old(LogListeners) ==> LogListeners == old(LogListeners)
      ensures LogCount == old(LogCount) && Stat == old(Stat) && StatCount == old(StatCount)
      ensures Draining == old(Draining)
    {
      LogListeners := LogListeners - {clientId};
    }

    /** registerStatClient: a fresh id with an empty window. */
    method RegisterStatClient() returns (id: int)
      requires Valid()
      modifies this
      ensures History == old(History)
      ensures Valid()
      ensures id == old(StatCount) + 1 && StatCount == id
      ensures forall other :: other in old(Stat) ==> other < id
      ensures id !in old(Stat)
      ensures Stat == old(Stat)[id := EmptyStat]
      ensures LogListeners == old(LogListeners) && LogCount == old(LogCount) && Draining == old(Draining)
    {
      StatCount := StatCount + 1;
      Stat := Stat[StatCount := EmptyStat];
      id := StatCount;
    }

    /** unsubscribeStatClient: removes that id only; a no-op when absent. */
    method UnsubscribeStatClient(client: int)
      requires Valid()
      modifies this
      ensures History == old(History)
      ensures Valid()
      ensures Stat == old(Stat) - {client}
      ensures client !in old(Stat) ==> Stat == old(Stat)
      ensures LogListeners == old(LogListeners) && LogCount == old(LogCount)
      ensures StatCount == old(StatCount) && Draining == old(Draining)
    {
      Stat := Stat - {client};
    }

    /** resetStat: the window becomes empty; an absent client becomes
        registered (Valid() is kept only for ids already handed out). */
    method ResetStat(client: int)
      requires Valid()
      requires 1 <= client <= StatCount
      modifies this
      ensures History == old(History)
      ensures Valid()
      ensures Stat == old(Stat)[client := EmptyStat]
      ensures LogListeners == old(LogListeners) && LogCount == old(LogCount)
      ensures StatCount == old(StatCount) && Draining == old(Draining)
    {
      Stat := Stat[client := EmptyStat];
    }

    /** getStat: the client's window stamped with `now`; an unknown client
        reads as an empty window. */
    method GetStat(client: int, now: int) returns (s: Stat)
      ensures s.timestamp == now
      ensures client in Stat ==> s.byMethod == Stat[client].byMethod && s.byConsumer == Stat[client].byConsumer
      ensures client !in Stat ==> s.byMethod == map[] && s.byConsumer == map[]
    {
      var w := if client in Stat then Stat[client] else EmptyStat;
      s := w.(timestamp := now);
    }

    /** addInvocation: every registered window records the call; the set of
        registered ids does not change. */
    method AddInvocation(methodName: string, consumerName: string)
      requires Valid()
      modifies this
      ensures Valid()
      ensures Stat.Keys == old(Stat).Keys
      ensures forall id :: id in Stat ==> Stat[id] == Record(old(Stat)[id], methodName, consumerName)
      ensures LogListeners == old(LogListeners) && LogCount == old(LogCount)
      ensures StatCount == old(StatCount) && Draining == old(Draining)
      ensures History == old(History) + [StatsRecorded]
    {
      History := History + [StatsRecorded];
      var pending := Stat.Keys;
      while pending != {}
        invariant pending <= Stat.Keys
        invariant Stat.Keys == old(Stat).Keys
        invariant forall id :: id in Stat && id !in pending ==>
                    Stat[id] == Record(old(Stat)[id], methodName, consumerName)
        invariant forall id :: id in pending ==> Stat[id] == old(Stat)[id]
        invariant LogListeners == old(LogListeners) && LogCount == old(LogCount)
        invariant StatCount == old(StatCount) && Draining == old(Draining)
        invariant History == old(History) + [StatsRecorded]
        decreases pending
      {
        NonEmptyHasElement(pending);
        var id :| id in pending;
        Stat := Stat[id := Record(Stat[id], methodName, consumerName)];
        pending := pending - {id};
      }
    }

    /** The handler of an admitted call. What it computes is an input; the
        step itself is recorded. */
    method RunHandler(handlerReply: Option<Reply>, handlerErr: Option<string>)
      returns (reply: Option<Reply>, err: Option<CallError>)
      modifies this
      ensures History == old(History) + [HandlerRun]
      ensures reply == handlerReply
      ensures err == (if handlerErr.Some? then Some(HandlerError(handlerErr.value)) else None)
      ensures LogListeners == old(LogListeners) && Stat == old(Stat) && LogCount == old(LogCount)
      ensures StatCount == old(StatCount) && Draining == old(Draining)
    {
      History := History + [HandlerRun];
      reply := handlerReply;
      err := if handlerErr.Some? then Some(HandlerError(handlerErr.value)) else None;
    }

    /** authStreamInterceptor: a denied call changes nothing and the handler
        does not run; an admitted one records statistics, then logs, then
        runs the handler and returns the handler's error. */
    method AuthStreamInterceptor(md: Metadata, fullMethod: string, now: int, host: string,
                                 handlerErr: Option<string>)
      returns (err: Option<CallError>)
      requires Valid()
      modifies this
      ensures Valid()
      ensures Decide(AclData, md, fullMethod).Deny? ==>
                err == Some(Unauthenticated(DenyMessage)) && History == old(History)
                && LogListeners == old(LogListeners) && Stat == old(Stat)
      ensures Decide(AclData, md, fullMethod).Crash? ==>
                err == Some(Panic) && History == old(History)
                && LogListeners == old(LogListeners) && Stat == old(Stat)
      ensures Decide(AclData, md, fullMethod).Admit? ==>
                var consumerName := md["consumer"][0];
                && History == old(History) + [StatsRecorded, EventLogged, HandlerRun]
                && err == (if handlerErr.Some? then Some(HandlerError(handlerErr.value)) else None)
                && Stat.Keys == old(Stat).Keys
                && (forall id :: id in Stat ==> Stat[id] == Record(old(Stat)[id], fullMethod, consumerName))
                && LogListeners.Keys == old(LogListeners).Keys
                && (forall id :: id in LogListeners ==>
                      LogListeners[id] == old(LogListeners)[id] + [Event(now, consumerName, fullMethod, host)])
      ensures LogCount == old(LogCount) && StatCount == old(StatCount) && Draining == old(Draining)
    {
      var admission := Decide(AclData, md, fullMethod);
      if admission.Crash? {
        return Some(Panic);
      }
      if admission.Deny? {
        return Some(Unauthenticated(DenyMessage));
      }
      var consumerName := admission.consumer;
      AddInvocation(fullMethod, consumerName);
      LogEvent(Event(now, consumerName, fullMethod, host));
      var _, handlerResult := RunHandler(None, handlerErr);
      err := handlerResult;
    }

    /** authInterceptor: a denied call changes nothing and returns no reply;
        an admitted one runs the handler first, then records statistics and
        logs, and returns the handler's reply and error unchanged. */
    method AuthInterceptor(md: Metadata, fullMethod: string, now: int, host: string,
                           handlerReply: Option<Reply>, handlerErr: Option<string>)
      returns (reply: Option<Reply>, err: Option<CallError>)
      requires Valid()
      modifies this
      ensures Valid()
      ensures !Decide(AclData, md, fullMethod).Admit? ==>
                reply == None && History == old(History)
                && err == Some(if Decide(AclData, md, fullMethod).Crash? then Panic else Unauthenticated(DenyMessage))
                && LogListeners == old(LogListeners) && Stat == old(Stat)
      ensures Decide(AclData, md, fullMethod).Admit? ==>
                var consumerName := md["consumer"][0];
                && History == old(History) + [HandlerRun, StatsRecorded, EventLogged]
                && reply == handlerReply
                && err == (if handlerErr.Some? then Some(HandlerError(handlerErr.value)) else None)
                && Stat.Keys == old(Stat).Keys
                && (forall id :: id in Stat ==> Stat[id] == Record(old(Stat)[id], fullMethod, consumerName))
                && LogListeners.Keys == old(LogListeners).Keys
                && (forall id :: id in LogListeners ==>
                      LogListeners[id] == old(LogListeners)[id] + [Event(now, consumerName, fullMethod, host)])
      ensures LogCount == old(LogCount) && StatCount == old(StatCount) && Draining == old(Draining)
    {
      var admission := Decide(AclData, md, fullMethod);
      if admission.Crash? {
        return None, Some(Panic);
      }
      if admission.Deny? {
        return None, Some(Unauthenticated(DenyMessage));
      }
      var consumerName := admission.consumer;
      reply, err := RunHandler(handlerReply, handlerErr);
      AddInvocation(fullMethod, consumerName);
      LogEvent(Event(now, consumerName, fullMethod, host));
    }

    /** One tick of the Statistics loop: the current window is snapshot,
        then reset to empty, then, if the send failed, the client is
        unsubscribed and the loop ends. */
    method StatisticsTick(clientId: int, now: int, sendOk: bool) returns (sent: Stat, stopped: bool)
      requires Valid()
      requires 1 <= clientId <= StatCount
      modifies this
      ensures History == old(History)
      ensures Valid()
      ensures sent.timestamp == now
      ensures clientId in old(Stat) ==>
                sent.byMethod == old(Stat)[clientId].byMethod && sent.byConsumer == old(Stat)[clientId].byConsumer
      ensures stopped == !sendOk
      ensures sendOk ==> Stat == old(Stat)[clientId := EmptyStat]
      ensures !sendOk ==> Stat == old(Stat) - {clientId}
      ensures LogListeners == old(LogListeners) && LogCount == old(LogCount)
      ensures StatCount == old(StatCount) && Draining == old(Draining)
    {
      sent := GetStat(clientId, now);
      ResetStat(clientId);
      stopped := !sendOk;
      if !sendOk {
        UnsubscribeStatClient(clientId);
      }
    }

    /** The start of the Logging handler: a new listener whose loop runs. */
    method LoggingStart() returns (clientId: int)
      requires Valid() && NoOrphans()
      modifies this
      ensures History == old(History)
      ensures Valid() && NoOrphans()
      ensures clientId == LogCount == old(LogCount) + 1 && clientId !in old(LogListeners)
      ensures LogListeners == old(LogListeners)[clientId := []]
      ensures Draining == old(Draining) + {clientId}
      ensures Stat == old(Stat) && StatCount == old(StatCount)
    {
      clientId := RegisterLogClient();
      Draining := Draining + {clientId};
    }

    /** One turn of the Logging loop AS WRITTEN: take the oldest event of the
        inbox (Blocked when it is empty) and send it; on a send error return
        the error without unsubscribing. The listener then stays registered
        with nobody receiving: NoOrphans is broken. */
    method LoggingStep(clientId: int, sendOk: bool) returns (outcome: LogOutcome)
      requires Valid() && NoOrphans()
      requires clientId in LogListeners
      modifies this
      ensures History == old(History)
      ensures Valid()
      ensures old(LogListeners)[clientId] == [] ==> outcome == Blocked && LogListeners == old(LogListeners)
      ensures old(LogListeners)[clientId] != [] ==>
                && LogListeners == old(LogListeners)[clientId := old(LogListeners)[clientId][1..]]
                && outcome == (if sendOk then Sent(old(LogListeners)[clientId][0]) else Failed)
      ensures outcome.Failed? ==> Draining == old(Draining) - {clientId}
                                  && clientId in LogListeners && !NoOrphans()
      ensures !outcome.Failed? ==> Draining == old(Draining) && NoOrphans()
      ensures LogCount == old(LogCount) && Stat == old(Stat) && StatCount == old(StatCount)
    {
      var inbox := LogListeners[clientId];
      if inbox == [] {
        return Blocked;
      }
      LogListeners := LogListeners[clientId := inbox[1..]];
      if !sendOk {
        Draining := Draining - {clientId};
        return Failed;
      }
      outcome := Sent(inbox[0]);
    }

    /** The corrected turn: on a send error it unsubscribes the listener
        before the loop ends, as Statistics does at service.go:228-230, so
        NoOrphans holds. */
    method LoggingStepFixed(clientId: int, sendOk: bool) returns (outcome: LogOutcome)
      requires Valid() && NoOrphans()
      requires clientId in LogListeners
      modifies this
      ensures History == old(History)
      ensures Valid() && NoOrphans()
      ensures old(LogListeners)[clientId] == [] ==> outcome == Blocked && LogListeners == old(LogListeners)
      ensures old(LogListeners)[clientId] != [] && sendOk ==>
                && LogListeners == old(LogListeners)[clientId := old(LogListeners)[clientId][1..]]
                && outcome == Sent(old(LogListeners)[clientId][0])
      ensures old(LogListeners)[clientId] != [] && !sendOk ==>
                && LogListeners == old(LogListeners) - {clientId}
                && outcome == Failed
      ensures outcome.Failed? ==> Draining == old(Draining) - {clientId}
      ensures !outcome.Failed? ==> Draining == old(Draining)
      ensures LogCount == old(LogCount) && Stat == old(Stat) && StatCount == old(StatCount)
    {
      var inbox := LogListeners[clientId];
      if inbox == [] {
        return Blocked;
      }
      LogListeners := LogListeners[clientId := inbox[1..]];
      if !sendOk {
        UnsubscribeLogClient(clientId);
        Draining := Draining - {clientId};
        return Failed;
      }
      outcome := Sent(inbox[0]);
    }

    /** The Logging stream behind authStreamInterceptor: the call's own event
        is logged before the handler subscribes, so the new listener starts
        with an empty inbox while every older listener receives the event. */
    method LoggingCall(md: Metadata, fullMethod: string, now: int, host: string)
      returns (err: Option<CallError>, clientId: int)
      requires Valid() && NoOrphans()
      modifies this
      ensures Valid() && NoOrphans()
      ensures Decide(AclData, md, fullMethod).Admit? ==>
                && err == None
                && History == old(History) + [StatsRecorded, EventLogged, HandlerRun]
                && clientId !in old(LogListeners) && clientId in LogListeners
                && LogListeners[clientId] == []
                && (forall id :: id in old(LogListeners) ==>
                      id in LogListeners
                      && LogListeners[id] == old(LogListeners)[id] + [Event(now, md["consumer"][0], fullMethod, host)])
      ensures !Decide(AclData, md, fullMethod).Admit? ==>
                err.Some? && History == old(History) && LogListeners == old(LogListeners)
    {
      err := AuthStreamInterceptor(md, fullMethod, now, host, None);
      if err.None? {
        clientId := LoggingStart();
      } else {
        clientId := 0;
      }
    }

    /** The Statistics stream behind authStreamInterceptor: the call is
        counted before the handler subscribes, so the new client's first
        window is empty while every older window counts the call. */
    method StatisticsCall(md: Metadata, fullMethod: string, now: int, host: string)
      returns (err: Option<CallError>, clientId: int)
      requires Valid()
      modifies this
      ensures Valid()
      ensures Decide(AclData, md, fullMethod).Admit? ==>
                && err == None
                && History == old(History) + [StatsRecorded, EventLogged, HandlerRun]
                && clientId !in old(Stat) && clientId in Stat
                && Stat[clientId] == EmptyStat
                && (forall id :: id in old(Stat) ==>
                      id in Stat && Stat[id] == Record(old(Stat)[id], fullMethod, md["consumer"][0]))
      ensures !Decide(AclData, md, fullMethod).Admit? ==>
                err.Some? && History == old(History) && Stat == old(Stat)
    {
      err := AuthStreamInterceptor(md, fullMethod, now, host, None);
      if err.None? {
        clientId := RegisterStatClient();
      } else {
        clientId := 0;
      }
    }
  }

  /** One turn of a Logging loop. */
  datatype LogOutcome = Blocked | Sent(event: Event) | Failed

  /** Three calls into an empty window. */
  lemma ThreeRecords()
    ensures Record(Record(Record(EmptyStat, "X", "Y"), "X", "Y"), "X", "Y") == Stat(0, map["X" := 3], map["Y" := 3])
  {
    var w1 := Record(EmptyStat, "X", "Y");
    assert w1.byMethod == map["X" := 1] && w1.byConsumer == map["Y" := 1];
    var w2 := Record(w1, "X", "Y");
    assert w2.byMethod == map["X" := 2] && w2.byConsumer == map["Y" := 2];
    var w3 := Record(w2, "X", "Y");
    assert w3.byMethod == map["X" := 3] && w3.byConsumer == map["Y" := 3];
  }

  /** One Statistics subscriber and three calls of X by Y: a tick reports 3
      and 3, and the next tick, with no calls, reports an empty window. */
  method StatisticsScenario() returns (first: Stat, second: Stat)
    ensures first.byMethod == map["X" := 3] && first.byConsumer == map["Y" := 3]
    ensures second.byMethod == map[] && second.byConsumer == map[]
  {
    var acl: Acl := map["Y" := ["X"]];
    var s := new Service(acl);
    var id := s.RegisterStatClient();
    s.AddInvocation("X", "Y");
    s.AddInvocation("X", "Y");
    s.AddInvocation("X", "Y");
    ThreeRecords();
    var stopped;
    first, stopped := s.StatisticsTick(id, 1, true);
    second, stopped := s.StatisticsTick(id, 2, true);
  }

  /** Counterexample to the as-written Logging loop: a client whose send
      fails leaves its listener registered with no loop receiving, so the
      next logged event is queued on a channel nobody reads. */
  method OrphanedListenerScenario() returns (orphaned: bool, queued: seq<Event>)
    ensures orphaned
    ensures queued == [Event(5, "Y", "X", "h")]
  {
    var s := new Service(map["Y" := ["X"]]);
    var id := s.LoggingStart();
    s.LogEvent(Event(4, "Y", "X", "h"));
    var outcome := s.LoggingStep(id, false);
    s.LogEvent(Event(5, "Y", "X", "h"));
    orphaned := id in s.LogListeners;
    queued := s.LogListeners[id];
  }
}
