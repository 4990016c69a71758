// The default server host: start everything, wait, and put everything away again in order.

module Host {
  import opened Basics

  /** How one release turns out within the shutdown budget. */
  datatype Release = Released | Refused | TimedOut

  /** How one service behaves in a run: its start, the record of it, its stop, the record of that. */
  datatype Service = Service(name: string, starts: bool, startRecorded: bool, stop: Release, stopRecorded: bool)

  datatype Realm = Realm(name: string, release: Release)

  /** Everything the environment decides about one run. */
  datatype Plan = Plan(
    services: seq<Service>, startRecorded: bool, put: bool,
    storageName: string, storage: Release, stopRecorded: bool,
    realms: seq<Realm>, auditName: string, audit: Release)

  /** What the host does, in the order it does it. Services and realms are named by position. */
  datatype Effect =
    | RecordServer(action: string, ok: bool)
    | RecordService(action: string, service: nat, ok: bool)
    | PutLastStart(ok: bool)
    | StartService(service: nat, ok: bool)
    | SetReady(ready: bool)
    | StopService(service: nat, outcome: Release)
    | ReleaseStorage(outcome: Release)
    | ReleaseRealm(realm: nat, outcome: Release)
    | ReleaseAudit(outcome: Release)

  datatype Failure = StartRecordFailed | PutFailed | ServiceFailed(service: nat) | StopRecordFailed
                   | StillToRelease(names: seq<string>)

  // --- What a run does -------------------------------------------------------------------------

  /** Index of the first service that does not start or whose start is not recorded. */
  function FirstBroken(services: seq<Service>): (k: nat)
    ensures k <= |services|
    ensures forall i :: 0 <= i < k ==> services[i].starts && services[i].startRecorded
    ensures k < |services| ==> !(services[k].starts && services[k].startRecorded)
  {
    if services == [] || !(services[0].starts && services[0].startRecorded) then 0
    else 1 + FirstBroken(services[1..])
  }

  predicate ReachesShutdown(plan: Plan) {
    plan.startRecorded && plan.put && FirstBroken(plan.services) == |plan.services|
  }

  /** Starting the first `n` services, each recorded as it starts. */
  function Started(services: seq<Service>, n: nat): seq<Effect>
    requires n <= |services|
  {
    if n == 0 then []
    else
      Started(services, n - 1) + [StartService(n - 1, services[n - 1].starts)]
      + if services[n - 1].starts then [RecordService("service.start", n - 1, services[n - 1].startRecorded)] else []
  }

  /** Stopping the services from the last one down to number `n`. */
  function Stopped(services: seq<Service>, n: nat): seq<Effect>
    requires n <= |services|
    decreases |services| - n
  {
    if n == |services| then []
    else
      Stopped(services, n + 1) + [StopService(n, services[n].stop)]
      + if services[n].stop.Released? then [RecordService("service.stop", n, services[n].stopRecorded)] else []
  }

  function RealmsReleased(realms: seq<Realm>, n: nat): seq<Effect>
    requires n <= |realms|
  {
    if n == 0 then [] else RealmsReleased(realms, n - 1) + [ReleaseRealm(n - 1, realms[n - 1].release)]
  }

  function Startup(plan: Plan): seq<Effect> {
    [RecordServer("server.start", plan.startRecorded)]
    + if !plan.startRecorded then []
      else [PutLastStart(plan.put)]
           + if !plan.put then []
             else
               var k := FirstBroken(plan.services);
               Started(plan.services, if k < |plan.services| then k + 1 else k)
  }

  /** What a run does after its last stop. */
  function Ending(plan: Plan): seq<Effect> {
    [ReleaseStorage(plan.storage)] + [RecordServer("server.stop", plan.stopRecorded)]
    + if plan.stopRecorded then RealmsReleased(plan.realms, |plan.realms|) + [ReleaseAudit(plan.audit)] else []
  }

  function Shutdown(plan: Plan): seq<Effect> {
    [SetReady(false)] + Stopped(plan.services, 0) + Ending(plan)
  }

  function Trace(plan: Plan): seq<Effect> {
    if ReachesShutdown(plan) then Startup(plan) + [SetReady(true)] + Shutdown(plan) else Startup(plan)
  }

  // --- The host --------------------------------------------------------------------------------

  class ServerHost {
    var ready: bool
    var trace: seq<Effect>

    constructor ()
      ensures !ready && trace == []
    {
      ready, trace := false, [];
    }

    method StartServices(services: seq<Service>) returns (r: Result<(), Failure>)
      modifies this`trace
      ensures var k := FirstBroken(services);
        && trace == old(trace) + Started(services, if k < |services| then k + 1 else k)
        && r == if k < |services| then Err(ServiceFailed(k)) else Ok(())
    {
      var i := 0;
      assert trace + [] == trace;
      while i < |services|
        invariant 0 <= i <= FirstBroken(services)
        invariant trace == old(trace) + Started(services, i)
      {
        trace := trace + [StartService(i, services[i].starts)];
        if !services[i].starts {
          assert trace == old(trace) + Started(services, i + 1);
          return Err(ServiceFailed(i));
        }
        trace := trace + [RecordService("service.start", i, services[i].startRecorded)];
        assert trace == old(trace) + Started(services, i + 1);
        if !services[i].startRecorded { return Err(ServiceFailed(i)); }
        i := i + 1;
      }
      r := Ok(());
    }

    method StopServices(services: seq<Service>) returns (unfinished: seq<string>)
      modifies this`trace
      ensures trace == old(trace) + Stopped(services, 0)
      ensures unfinished == [] <==> forall i :: 0 <= i < |services| ==> services[i].stop.Released?
      ensures unfinished == UnfinishedServices(services, 0)
    {
      unfinished := [];
      var i := |services|;
      assert trace + [] == trace;
      while i > 0
        invariant 0 <= i <= |services|
        invariant trace == old(trace) + Stopped(services, i)
        invariant unfinished == UnfinishedServices(services, i)
      {
        i := i - 1;
        trace := trace + [StopService(i, services[i].stop)];
        if services[i].stop.Released? {
          // A failed record is warned about and not counted against the stop.
          trace := trace + [RecordService("service.stop", i, services[i].stopRecorded)];
        } else {
          unfinished := unfinished + [services[i].name];
        }
        assert trace == old(trace) + Stopped(services, i);
      }
      UnfinishedNone(services, 0);
    }

    method Run(plan: Plan) returns (r: Result<(), Failure>)
      modifies this
      ensures trace == old(trace) + Trace(plan)
      ensures ready == (if ReachesShutdown(plan) then false else old(ready))
      ensures !ReachesShutdown(plan) ==>
        r == Err(if !plan.startRecorded then StartRecordFailed
                 else if !plan.put then PutFailed else ServiceFailed(FirstBroken(plan.services)))
      ensures ReachesShutdown(plan) && !plan.stopRecorded ==> r == Err(StopRecordFailed)
      ensures ReachesShutdown(plan) && plan.stopRecorded ==>
        (r.Ok? <==> AllReleased(plan)) && (r.Err? ==> r.error == StillToRelease(Unfinished(plan)))
    {
      hide Started, FirstBroken, Shutdown;
      trace := trace + [RecordServer("server.start", plan.startRecorded)];
      if !plan.startRecorded { return Err(StartRecordFailed); }
      trace := trace + [PutLastStart(plan.put)];
      if !plan.put { return Err(PutFailed); }
      var started := StartServices(plan.services);
      assert trace == old(trace) + Startup(plan);
      if started.Err? { return Err(started.error); }
      ready := true;
      trace := trace + [SetReady(true)];
      r := PutAway(plan);
      assert trace == old(trace) + (Startup(plan) + [SetReady(true)] + Shutdown(plan));
    }

    /** The second half of a run, once shutdown was asked for. */
    method PutAway(plan: Plan) returns (r: Result<(), Failure>)
      modifies this
      ensures trace == old(trace) + Shutdown(plan)
      ensures !ready
      ensures !plan.stopRecorded ==> r == Err(StopRecordFailed)
      ensures plan.stopRecorded ==>
        (r.Ok? <==> AllReleased(plan)) && (r.Err? ==> r.error == StillToRelease(Unfinished(plan)))
    {
      hide Stopped, RealmsReleased, UnfinishedServices, UnfinishedRealms;
      ready := false;
      trace := trace + [SetReady(false)];
      var unfinished := StopServices(plan.services);
      trace := trace + [ReleaseStorage(plan.storage)];
      if !plan.storage.Released? { unfinished := unfinished + [plan.storageName]; }
      trace := trace + [RecordServer("server.stop", plan.stopRecorded)];
      if !plan.stopRecorded {
        assert trace == old(trace) + Shutdown(plan);
        return Err(StopRecordFailed);
      }
      var more := ReleaseRealms(plan.realms);
      unfinished := unfinished + more;
      trace := trace + [ReleaseAudit(plan.audit)];
      assert trace == old(trace) + Shutdown(plan);
      if !plan.audit.Released? { unfinished := unfinished + [plan.auditName]; }
      assert unfinished == Unfinished(plan);
      if unfinished == [] { return Ok(()); }
      return Err(StillToRelease(unfinished));
    }

    method ReleaseRealms(realms: seq<Realm>) returns (unfinished: seq<string>)
      modifies this`trace
      ensures trace == old(trace) + RealmsReleased(realms, |realms|)
      ensures unfinished == UnfinishedRealms(realms, |realms|)
      ensures unfinished == [] <==> forall i :: 0 <= i < |realms| ==> realms[i].release.Released?
    {
      unfinished := [];
      assert trace + [] == trace;
      for i := 0 to |realms|
        invariant trace == old(trace) + RealmsReleased(realms, i)
        invariant unfinished == UnfinishedRealms(realms, i)
        invariant unfinished == [] <==> forall j :: 0 <= j < i ==> realms[j].release.Released?
      {
        assert RealmsReleased(realms, i + 1) == RealmsReleased(realms, i) + [ReleaseRealm(i, realms[i].release)];
        trace := trace + [ReleaseRealm(i, realms[i].release)];
        if !realms[i].release.Released? {
          unfinished := unfinished + ["realm " + realms[i].name];
        }
      }
    }
  }

  // --- What is reported as unfinished ----------------------------------------------------------

  /** Names of the services from number `n` up that did not stop, last one first. */
  function UnfinishedServices(services: seq<Service>, n: nat): seq<string>
    requires n <= |services|
    decreases |services| - n
  {
    if n == |services| then []
    else UnfinishedServices(services, n + 1) + if services[n].stop.Released? then [] else [services[n].name]
  }

  lemma {:induction false} UnfinishedNone(services: seq<Service>, n: nat)
    requires n <= |services|
    ensures UnfinishedServices(services, n) == [] <==> forall i :: n <= i < |services| ==> services[i].stop.Released?
    decreases |services| - n
  {
    if n < |services| {
      UnfinishedNone(services, n + 1);
      var later := UnfinishedServices(services, n + 1);
      var here := if services[n].stop.Released? then [] else [services[n].name];
      assert UnfinishedServices(services, n) == later + here;
      assert later + here == [] <==> later == [] && here == [];
    }
  }

  function UnfinishedRealms(realms: seq<Realm>, n: nat): seq<string>
    requires n <= |realms|
  {
    if n == 0 then []
    else
      UnfinishedRealms(realms, n - 1)
      + if realms[n - 1].release.Released? then [] else ["realm " + realms[n - 1].name]
  }

  function Unfinished(plan: Plan): seq<string> {
    UnfinishedServices(plan.services, 0)
    + (if plan.storage.Released? then [] else [plan.storageName])
    + UnfinishedRealms(plan.realms, |plan.realms|)
    + (if plan.audit.Released? then [] else [plan.auditName])
  }

  ghost predicate AllReleased(plan: Plan) {
    && (forall i :: 0 <= i < |plan.services| ==> plan.services[i].stop.Released?)
    && plan.storage.Released?
    && (forall i :: 0 <= i < |plan.realms| ==> plan.realms[i].release.Released?)
    && plan.audit.Released?
  }

  // --- What every run keeps --------------------------------------------------------------------

  /** The services an effect list starts, in order; and the ones it stops. */
  function StartOrder(t: seq<Effect>): seq<nat> {
    if t == [] then []
    else StartOrder(t[..|t| - 1]) + if t[|t| - 1].StartService? then [t[|t| - 1].service] else []
  }

  function StopOrder(t: seq<Effect>): seq<nat> {
    if t == [] then []
    else StopOrder(t[..|t| - 1]) + if t[|t| - 1].StopService? then [t[|t| - 1].service] else []
  }

  function Reversed(s: seq<nat>): (r: seq<nat>)
    ensures |r| == |s| && forall i :: 0 <= i < |s| ==> r[i] == s[|s| - 1 - i]
  {
    seq(|s|, i requires 0 <= i < |s| => s[|s| - 1 - i])
  }

  lemma {:induction false} OrdersConcat(a: seq<Effect>, b: seq<Effect>)
    ensures StartOrder(a + b) == StartOrder(a) + StartOrder(b)
    ensures StopOrder(a + b) == StopOrder(a) + StopOrder(b)
  {
    if b == [] {
      assert a + b == a;
    } else {
      assert (a + b)[..|a + b| - 1] == a + b[..|b| - 1];
      OrdersConcat(a, b[..|b| - 1]);
    }
  }

  function UpTo(n: nat): (r: seq<nat>)
    ensures |r| == n && forall i :: 0 <= i < n ==> r[i] == i
  {
    seq(n, i requires 0 <= i < n => i)
  }

  lemma SmallOrders(a: Effect, b: seq<Effect>)
    requires |b| == 0 || (|b| == 1 && b[0].RecordService?)
    ensures StartOrder([a] + b) == if a.StartService? then [a.service] else []
    ensures StopOrder([a] + b) == if a.StopService? then [a.service] else []
  {
    OrdersConcat([a], b);
    assert [a][..0] == [];
    if b != [] { assert b[..0] == []; }
  }

  lemma StartedLast(services: seq<Service>, n: nat, first: Effect, more: seq<Effect>)
    requires 0 < n <= |services| && first == StartService(n - 1, services[n - 1].starts)
    requires more == if services[n - 1].starts
      then [RecordService("service.start", n - 1, services[n - 1].startRecorded)] else []
    ensures Started(services, n) == Started(services, n - 1) + ([first] + more)
  {
  }

  lemma {:induction false} StartedOrders(services: seq<Service>, n: nat)
    requires n <= |services|
    ensures StartOrder(Started(services, n)) == UpTo(n) && StopOrder(Started(services, n)) == []
  {
    hide StartOrder, StopOrder, UpTo, Started;
    if n == 0 {
      NothingStarted(services);
      NoOrders([]);
      assert UpTo(0) == [];
    } else {
      StartedOrders(services, n - 1);
      var first := StartService(n - 1, services[n - 1].starts);
      var record := RecordService("service.start", n - 1, services[n - 1].startRecorded);
      var more := if services[n - 1].starts then [record] else [];
      SmallOrders(first, more);
      OrdersConcat(Started(services, n - 1), [first] + more);
      StartedLast(services, n, first, more);
      assert UpTo(n) == UpTo(n - 1) + [n - 1];
    }
  }

  lemma {:induction false} StoppedOrders(services: seq<Service>, n: nat)
    requires n <= |services|
    ensures StartOrder(Stopped(services, n)) == []
    ensures StopOrder(Stopped(services, n)) == Reversed(UpTo(|services|)[n..])
    decreases |services| - n
  {
    hide StartOrder, StopOrder;
    if n == |services| {
      NoOrders([]);
    } else {
      StoppedOrders(services, n + 1);
      var first := StopService(n, services[n].stop);
      var record := RecordService("service.stop", n, services[n].stopRecorded);
      var more := if services[n].stop.Released? then [record] else [];
      SmallOrders(first, more);
      OrdersConcat(Stopped(services, n + 1), [first] + more);
      assert Stopped(services, n) == Stopped(services, n + 1) + ([first] + more);
      ReversedMore(UpTo(|services|), n);
    }
  }

  lemma ReversedMore(s: seq<nat>, n: nat)
    requires n < |s|
    ensures Reversed(s[n..]) == Reversed(s[n + 1..]) + [s[n]]
  {
  }

  /** An effect that releases something. */
  predicate IsRelease(e: Effect) {
    e.StopService? || e.ReleaseStorage? || e.ReleaseRealm? || e.ReleaseAudit?
  }

  lemma {:induction false} StartupReleasesNothing(services: seq<Service>, n: nat)
    requires n <= |services|
    ensures forall i :: 0 <= i < |Started(services, n)| ==> !IsRelease(Started(services, n)[i])
  {
    if n > 0 {
      StartupReleasesNothing(services, n - 1);
    }
  }

  lemma StartupQuiet(plan: Plan)
    ensures forall i :: 0 <= i < |Startup(plan)| ==> !IsRelease(Startup(plan)[i])
  {
    var k := FirstBroken(plan.services);
    StartupReleasesNothing(plan.services, if k < |plan.services| then k + 1 else k);
  }

  /** Every service started in a run that reaches shutdown is stopped exactly once, in the reverse
      of the order it was started in, whatever each stop turns out to be. */
  lemma StopsReverseStarts(plan: Plan)
    requires ReachesShutdown(plan)
    ensures StartOrder(Trace(plan)) == UpTo(|plan.services|)
    ensures StopOrder(Trace(plan)) == Reversed(StartOrder(Trace(plan)))
  {
    hide Started, Stopped, StartOrder, StopOrder, UpTo, Reversed, Trace, Ending;
    var n := |plan.services|;
    var head := [RecordServer("server.start", true), PutLastStart(true)];
    var quiet := [SetReady(true), SetReady(false)];
    var started, stopped, end := Started(plan.services, n), Stopped(plan.services, 0), Ending(plan);
    TraceParts(plan);
    StartedOrders(plan.services, n);
    StoppedOrders(plan.services, 0);
    NoOrders(head);
    NoOrders(quiet);
    EndingQuiet(plan);
    NoOrders(end);
    OrdersConcat(head + started + quiet + stopped, end);
    OrdersConcat(head + started + quiet, stopped);
    OrdersConcat(head + started, quiet);
    OrdersConcat(head, started);
    assert UpTo(n)[0..] == UpTo(n);
  }

  lemma TraceParts(plan: Plan)
    requires ReachesShutdown(plan)
    ensures Trace(plan) ==
      [RecordServer("server.start", true), PutLastStart(true)] + Started(plan.services, |plan.services|)
      + [SetReady(true), SetReady(false)] + Stopped(plan.services, 0) + Ending(plan)
  {
    hide Started, Stopped, RealmsReleased, FirstBroken;
  }

  lemma EndingQuiet(plan: Plan)
    ensures forall i :: 0 <= i < |Ending(plan)| ==> !Ending(plan)[i].StartService? && !Ending(plan)[i].StopService?
  {
    RealmsQuiet(plan.realms, |plan.realms|);
  }

  lemma {:induction false} NoOrders(t: seq<Effect>)
    requires forall i :: 0 <= i < |t| ==> !t[i].StartService? && !t[i].StopService?
    ensures StartOrder(t) == [] && StopOrder(t) == []
  {
    if t != [] {
      NoOrders(t[..|t| - 1]);
    }
  }

  lemma {:induction false} RealmsQuiet(realms: seq<Realm>, n: nat)
    requires n <= |realms|
    ensures |RealmsReleased(realms, n)| == n
    ensures forall i :: 0 <= i < n ==> RealmsReleased(realms, n)[i] == ReleaseRealm(i, realms[i].release)
  {
    if n > 0 {
      RealmsQuiet(realms, n - 1);
    }
  }

  /** Readiness is cleared before anything is released; the store goes after the last stop; and when
      the final record is written, the system audit sink is the last thing of all, after that record
      and after every realm's sink. When it is not, no sink is released at all. */
  ghost predicate InOrder(plan: Plan, before: seq<Effect>, stops: seq<Effect>, rest: seq<Effect>) {
    && Trace(plan) == before + [SetReady(false)] + stops + [ReleaseStorage(plan.storage)]
                      + [RecordServer("server.stop", plan.stopRecorded)] + rest
    && (forall i :: 0 <= i < |before| ==> !IsRelease(before[i]))
    && (forall i :: 0 <= i < |stops| ==> stops[i].StopService? || stops[i].RecordService?)
    && (plan.stopRecorded ==>
          |rest| == |plan.realms| + 1 && rest[|rest| - 1] == ReleaseAudit(plan.audit)
          && forall i :: 0 <= i < |plan.realms| ==> rest[i] == ReleaseRealm(i, plan.realms[i].release))
    && (!plan.stopRecorded ==> rest == [])
  }

  lemma ShutdownOrder(plan: Plan)
    requires ReachesShutdown(plan)
    ensures exists before, stops, rest :: InOrder(plan, before, stops, rest)
  {
    hide Started, Stopped, RealmsReleased, FirstBroken, Startup;
    var before := Startup(plan) + [SetReady(true)];
    var stops := Stopped(plan.services, 0);
    var sinks := RealmsReleased(plan.realms, |plan.realms|) + [ReleaseAudit(plan.audit)];
    var rest := if plan.stopRecorded then sinks else [];
    StartupQuiet(plan);
    StoppedShape(plan.services, 0);
    RealmsQuiet(plan.realms, |plan.realms|);
    assert Trace(plan) == before + [SetReady(false)] + stops + [ReleaseStorage(plan.storage)]
      + [RecordServer("server.stop", plan.stopRecorded)] + rest;
    assert InOrder(plan, before, stops, rest);
  }

  lemma {:induction false} StoppedShape(services: seq<Service>, n: nat)
    requires n <= |services|
    ensures forall i :: 0 <= i < |Stopped(services, n)| ==>
      Stopped(services, n)[i].StopService? || Stopped(services, n)[i].RecordService?
    decreases |services| - n
  {
    if n < |services| {
      StoppedShape(services, n + 1);
    }
  }

  // --- What a failed start leaves running ------------------------------------------------------

  /** The service came up; and it was told to stop. */
  ghost predicate ComesUp(t: seq<Effect>, i: nat) { StartService(i, true) in t }

  ghost predicate ToldToStop(t: seq<Effect>, i: nat) { exists outcome :: StopService(i, outcome) in t }

  /** The effects of starting the first `n` services name each of them once, with how it went. */
  lemma {:induction false} StartedNames(services: seq<Service>, n: nat, i: nat, ok: bool)
    requires n <= |services|
    ensures StartService(i, ok) in Started(services, n) <==> i < n && ok == services[i].starts
  {
    hide Started;
    if n == 0 { NothingStarted(services); }
    if n > 0 {
      StartedNames(services, n - 1, i, ok);
      StartedPush(services, n, StartService(i, ok));
    }
  }

  lemma NothingStarted(services: seq<Service>)
    ensures Started(services, 0) == []
  {
  }

  lemma StartedPush(services: seq<Service>, n: nat, e: Effect)
    requires 0 < n <= |services| && e.StartService?
    ensures e in Started(services, n) <==>
      e in Started(services, n - 1) || e == StartService(n - 1, services[n - 1].starts)
  {
    var before, first := Started(services, n - 1), [StartService(n - 1, services[n - 1].starts)];
    var record := RecordService("service.start", n - 1, services[n - 1].startRecorded);
    var more := if services[n - 1].starts then [record] else [];
    assert e !in more;
    assert Started(services, n) == before + first + more;
  }

  lemma StoppedPush(services: seq<Service>, n: nat, e: Effect)
    requires n < |services| && (e.StopService? || e.StartService?)
    ensures e in Stopped(services, n) <==> e in Stopped(services, n + 1) || e == StopService(n, services[n].stop)
  {
    var before, first := Stopped(services, n + 1), [StopService(n, services[n].stop)];
    var more := if services[n].stop.Released? then [RecordService("service.stop", n, services[n].stopRecorded)] else [];
    assert e !in more;
    assert Stopped(services, n) == before + first + more;
  }

  lemma {:induction false} StoppedNames(services: seq<Service>, n: nat, i: nat)
    requires n <= i < |services|
    ensures StopService(i, services[i].stop) in Stopped(services, n)
    decreases |services| - n
  {
    hide Stopped;
    StoppedPush(services, n, StopService(i, services[i].stop));
    if n < i {
      StoppedNames(services, n + 1, i);
    }
  }

  /** Whether the first service comes up, which is whether any does. */
  predicate FirstComesUp(plan: Plan) {
    plan.startRecorded && plan.put && plan.services != [] && plan.services[0].starts
  }

  lemma ComesUpExactly(plan: Plan, i: nat)
    ensures ComesUp(Startup(plan), i) <==>
      && plan.startRecorded && plan.put
      && i < |plan.services| && i <= FirstBroken(plan.services) && plan.services[i].starts
  {
    hide Started, FirstBroken;
    if plan.startRecorded && plan.put {
      var k := FirstBroken(plan.services);
      var n := if k < |plan.services| then k + 1 else k;
      StartedNames(plan.services, n, i, true);
      var head := [RecordServer("server.start", true), PutLastStart(true)];
      assert Startup(plan) == head + Started(plan.services, n);
      assert StartService(i, true) !in head;
    }
  }

  /** A run that does not reach shutdown releases nothing at all. */
  lemma FailedStartReleasesNothing(plan: Plan)
    requires !ReachesShutdown(plan)
    ensures forall e :: e in Trace(plan) ==> !IsRelease(e)
  {
    hide Startup;
    StartupQuiet(plan);
  }

  /** Every service that comes up in a run is told to stop in it exactly when the run reaches shutdown,
      or none comes up, which the first service decides. */
  lemma AllStoppedExactly(plan: Plan)
    ensures (forall i :: ComesUp(Trace(plan), i) ==> ToldToStop(Trace(plan), i)) <==>
      ReachesShutdown(plan) || !FirstComesUp(plan)
  {
    hide Startup, FirstBroken, Ending;
    if ReachesShutdown(plan) {
      forall i | ComesUp(Trace(plan), i) ensures ToldToStop(Trace(plan), i) {
        StopsWhatStarted(plan, i);
      }
    } else {
      ComesUpExactly(plan, 0);
      forall i: nat ensures !ToldToStop(Trace(plan), i) && (ComesUp(Trace(plan), i) ==> FirstComesUp(plan)) {
        NeverToldToStop(plan, i);
        ComesUpExactly(plan, i);
      }
      assert FirstComesUp(plan) ==> ComesUp(Trace(plan), 0);
    }
  }

  lemma NeverToldToStop(plan: Plan, i: nat)
    requires !ReachesShutdown(plan)
    ensures !ToldToStop(Trace(plan), i)
  {
    hide Trace;
    FailedStartReleasesNothing(plan);
    forall outcome ensures StopService(i, outcome) !in Trace(plan) {
      assert IsRelease(StopService(i, outcome));
    }
  }

  lemma StopsWhatStarted(plan: Plan, i: nat)
    requires ReachesShutdown(plan) && ComesUp(Trace(plan), i)
    ensures ToldToStop(Trace(plan), i)
  {
    hide Started, Stopped, Trace, Ending;
    TraceParts(plan);
    var n := |plan.services|;
    var started, stopped, end := Started(plan.services, n), Stopped(plan.services, 0), Ending(plan);
    StoppedQuiet(plan.services, 0);
    EndingQuiet(plan);
    assert StartService(i, true) in started;
    StartedNames(plan.services, n, i, true);
    StoppedNames(plan.services, 0, i);
    assert StopService(i, plan.services[i].stop) in Trace(plan);
  }

  lemma {:induction false} StoppedQuiet(services: seq<Service>, n: nat)
    requires n <= |services|
    ensures forall e :: e in Stopped(services, n) ==> !e.StartService?
    decreases |services| - n
  {
    if n < |services| {
      StoppedQuiet(services, n + 1);
    }
  }

  /** Two services, the second of which does not start: the first stays up. */
  lemma FirstStaysUp(plan: Plan)
    requires plan.startRecorded && plan.put && |plan.services| == 2
    requires plan.services[0].starts && plan.services[0].startRecorded && !plan.services[1].starts
    ensures !ReachesShutdown(plan) && ComesUp(Trace(plan), 0) && !ToldToStop(Trace(plan), 0)
  {
    hide Startup;
    assert FirstBroken(plan.services) == 1;
    ComesUpExactly(plan, 0);
    NeverToldToStop(plan, 0);
  }

  ghost predicate SystemSinkReleased(t: seq<Effect>) { exists outcome :: ReleaseAudit(outcome) in t }

  ghost predicate RealmSinkReleased(t: seq<Effect>, i: nat) { exists outcome :: ReleaseRealm(i, outcome) in t }

  /** The audit sinks are released exactly in the runs that reach shutdown and record it: a final record
      that is not written leaves every one of them as it is. */
  lemma SinksReleasedExactly(plan: Plan)
    ensures SystemSinkReleased(Trace(plan)) <==> ReachesShutdown(plan) && plan.stopRecorded
    ensures forall i :: 0 <= i < |plan.realms| ==>
      (RealmSinkReleased(Trace(plan), i) <==> ReachesShutdown(plan) && plan.stopRecorded)
  {
    hide Trace, Ending;
    if ReachesShutdown(plan) {
      forall outcome ensures ReleaseAudit(outcome) in Trace(plan) ==> plan.stopRecorded {
        EndsWith(plan, ReleaseAudit(outcome));
      }
      forall i, outcome ensures ReleaseRealm(i, outcome) in Trace(plan) ==> plan.stopRecorded {
        EndsWith(plan, ReleaseRealm(i, outcome));
      }
      EndsWith(plan, ReleaseAudit(plan.audit));
      forall i | 0 <= i < |plan.realms| ensures RealmSinkReleased(Trace(plan), i) <==> plan.stopRecorded {
        assert plan.stopRecorded ==> ReleaseRealm(i, plan.realms[i].release) in Trace(plan);
      }
    } else {
      FailedStartReleasesNothing(plan);
      assert forall outcome :: IsRelease(ReleaseAudit(outcome));
      assert forall i, outcome :: IsRelease(ReleaseRealm(i, outcome));
    }
  }

  /** A sink is released at the end of a run or not at all. */
  lemma EndsWith(plan: Plan, e: Effect)
    requires ReachesShutdown(plan) && (e.ReleaseAudit? || e.ReleaseRealm?)
    ensures e in Trace(plan) ==> plan.stopRecorded
    ensures plan.stopRecorded ==> ReleaseAudit(plan.audit) in Trace(plan)
    ensures plan.stopRecorded ==>
      forall i :: 0 <= i < |plan.realms| ==> ReleaseRealm(i, plan.realms[i].release) in Trace(plan)
  {
    hide Trace, Started, Stopped, RealmsReleased;
    TraceParts(plan);
    RealmsQuiet(plan.realms, |plan.realms|);
    StartupReleasesNothing(plan.services, |plan.services|);
    NoSinks(plan.services, 0, e);
    assert IsRelease(e);
    if plan.stopRecorded {
      forall i | 0 <= i < |plan.realms| ensures ReleaseRealm(i, plan.realms[i].release) in Trace(plan) {
        assert RealmsReleased(plan.realms, |plan.realms|)[i] == ReleaseRealm(i, plan.realms[i].release);
      }
    }
  }

  lemma {:induction false} NoSinks(services: seq<Service>, n: nat, e: Effect)
    requires n <= |services| && (e.ReleaseAudit? || e.ReleaseRealm?)
    ensures e !in Stopped(services, n)
    decreases |services| - n
  {
    if n < |services| {
      NoSinks(services, n + 1, e);
    }
  }

  // --- What a run reports and records ----------------------------------------------------------

  /** A release that is reported as unfinished: a service's, the store's, a realm's or the system sink's,
      each by its own name. */
  ghost predicate LeftUnfinished(plan: Plan, name: string) {
    || (exists i :: 0 <= i < |plan.services| && !plan.services[i].stop.Released? && plan.services[i].name == name)
    || (!plan.storage.Released? && name == plan.storageName)
    || (exists i ::
          0 <= i < |plan.realms| && !plan.realms[i].release.Released? && "realm " + plan.realms[i].name == name)
    || (!plan.audit.Released? && name == plan.auditName)
  }

  /** The names reported are exactly those of the releases that did not finish. */
  lemma UnfinishedExactly(plan: Plan, name: string)
    ensures name in Unfinished(plan) <==> LeftUnfinished(plan, name)
  {
    hide UnfinishedServices, UnfinishedRealms;
    ServicesNamed(plan.services, 0, name);
    RealmsNamed(plan.realms, |plan.realms|, name);
  }

  lemma {:induction false} ServicesNamed(services: seq<Service>, n: nat, name: string)
    requires n <= |services|
    ensures name in UnfinishedServices(services, n) <==>
      exists i :: n <= i < |services| && !services[i].stop.Released? && services[i].name == name
    decreases |services| - n
  {
    if n < |services| {
      ServicesNamed(services, n + 1, name);
      var here := if services[n].stop.Released? then [] else [services[n].name];
      assert UnfinishedServices(services, n) == UnfinishedServices(services, n + 1) + here;
    }
  }

  lemma {:induction false} RealmsNamed(realms: seq<Realm>, n: nat, name: string)
    requires n <= |realms|
    ensures name in UnfinishedRealms(realms, n) <==>
      exists i :: 0 <= i < n && !realms[i].release.Released? && "realm " + realms[i].name == name
  {
    if n > 0 {
      RealmsNamed(realms, n - 1, name);
      var here := if realms[n - 1].release.Released? then [] else ["realm " + realms[n - 1].name];
      assert UnfinishedRealms(realms, n) == UnfinishedRealms(realms, n - 1) + here;
    }
  }

  /** Of every run: a service that came up has its start recorded, and one that stopped its stop. */
  lemma EveryTurnRecorded(plan: Plan, i: nat)
    requires i < |plan.services|
    ensures StartService(i, true) in Startup(plan) ==>
      RecordService("service.start", i, plan.services[i].startRecorded) in Startup(plan)
    ensures plan.services[i].stop.Released? ==>
      RecordService("service.stop", i, plan.services[i].stopRecorded) in Shutdown(plan)
  {
    hide Started, Stopped, FirstBroken, Ending;
    if plan.startRecorded && plan.put {
      var k := FirstBroken(plan.services);
      var n := if k < |plan.services| then k + 1 else k;
      StartRecorded(plan.services, n, i);
      var head := [RecordServer("server.start", true), PutLastStart(true)];
      assert Startup(plan) == head + Started(plan.services, n);
      assert StartService(i, true) !in head;
    }
    StopRecorded(plan.services, 0, i);
  }

  lemma {:induction false} StartRecorded(services: seq<Service>, n: nat, i: nat)
    requires n <= |services| && i < |services|
    ensures StartService(i, true) in Started(services, n) ==>
      RecordService("service.start", i, services[i].startRecorded) in Started(services, n)
  {
    if n > 0 {
      StartRecorded(services, n - 1, i);
      StartedPush(services, n, StartService(i, true));
      var first := StartService(n - 1, services[n - 1].starts);
      var record := RecordService("service.start", n - 1, services[n - 1].startRecorded);
      var more := if services[n - 1].starts then [record] else [];
      StartedLast(services, n, first, more);
      assert services[n - 1].starts ==> record in [first] + more;
    }
  }

  lemma {:induction false} StopRecorded(services: seq<Service>, n: nat, i: nat)
    requires n <= i < |services|
    ensures services[i].stop.Released? ==>
      RecordService("service.stop", i, services[i].stopRecorded) in Stopped(services, n)
    decreases |services| - n
  {
    if n < i {
      StopRecorded(services, n + 1, i);
    }
  }
}
