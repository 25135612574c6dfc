/**
 * The lifecycle shared by the simulator's TCP and UDP services
 * (`NetworkSimulatorServiceBase` with the default `Restart` of
 * `INetworkSimulatorService`): a service is stopped or running; starting picks
 * the port (the value -1 selects the service's default port), creates a
 * cancellation token source and launches the background run; stopping cancels
 * the token, calls the service's own stop hook and drops the token source.
 * The background run and the stop hook are recorded as `Activity` entries.
 */
module Simulator {
  const TcpDefaultPort: int := 50000
  const UdpDefaultPort: int := 50001
  /** `Start`'s default argument, which selects the default port. */
  const UseDefaultPort: int := -1

  /** What a lifecycle call does besides changing the state. */
  datatype Activity =
      /** `Task.Run(() => RunAsync(token))` on this port. */
    | RunLaunched(port: int)
    | TokenCancelled
    | StopInternalCalled

  /** `Port`, `IsRunning`, and whether the token source is set. */
  datatype ServiceState = ServiceState(port: int, isRunning: bool, hasTokenSource: bool)

  /** The port `Start(port)` runs on. */
  function ChosenPort(port: int, defaultPort: int): (r: int)
    ensures r == port || r == defaultPort
    ensures r == defaultPort <==> port == UseDefaultPort || port == defaultPort
  {
    if port == UseDefaultPort then defaultPort else port
  }

  /** `Start(port)` on state `s`: nothing when running. */
  function Started(s: ServiceState, defaultPort: int, port: int): (t: ServiceState)
    ensures t.isRunning
    ensures s.isRunning ==> t == s
    ensures !s.isRunning ==> t.hasTokenSource && t.port == ChosenPort(port, defaultPort)
  {
    if s.isRunning then s else ServiceState(ChosenPort(port, defaultPort), true, true)
  }

  function StartActivity(s: ServiceState, defaultPort: int, port: int): seq<Activity> {
    if s.isRunning then [] else [RunLaunched(ChosenPort(port, defaultPort))]
  }

  /** `Stop()` on state `s`: nothing when stopped; the port is kept. */
  function Stopped(s: ServiceState): (t: ServiceState)
    ensures !t.isRunning && t.port == s.port
    ensures !s.isRunning ==> t == s
    ensures s.isRunning ==> !t.hasTokenSource
  {
    if !s.isRunning then s else ServiceState(s.port, false, false)
  }

  function StopActivity(s: ServiceState): seq<Activity> {
    if !s.isRunning then [] else [TokenCancelled, StopInternalCalled]
  }

  /** `Restart()`: `Stop()`, then `Start(Port)`. */
  function Restarted(s: ServiceState, defaultPort: int): (t: ServiceState)
    ensures t.isRunning && t.hasTokenSource && t.port == ChosenPort(s.port, defaultPort)
  {
    Started(Stopped(s), defaultPort, Stopped(s).port)
  }

  /** The service's invariant: running exactly when a token source exists. */
  predicate Consistent(s: ServiceState) {
    s.isRunning <==> s.hasTokenSource
  }

  /** Starting and stopping keep the invariant. */
  lemma LifecycleKeepsConsistent(s: ServiceState, defaultPort: int, port: int)
    requires Consistent(s)
    ensures Consistent(Started(s, defaultPort, port))
    ensures Consistent(Stopped(s))
    ensures Consistent(Restarted(s, defaultPort))
  {
  }

  /**
   * `Start` on a running service changes nothing and launches nothing; from
   * stopped it runs on the chosen port with a token source, launching one run.
   * So a second `Start` is a no-op.
   */
  lemma StartSemantics(s: ServiceState, defaultPort: int, port: int, port2: int)
    ensures s.isRunning ==> Started(s, defaultPort, port) == s && StartActivity(s, defaultPort, port) == []
    ensures !s.isRunning ==>
      var t := Started(s, defaultPort, port);
      t.isRunning && t.hasTokenSource &&
      t.port == (if port == -1 then defaultPort else port) &&
      StartActivity(s, defaultPort, port) == [RunLaunched(t.port)]
    ensures var t := Started(s, defaultPort, port);
      Started(t, defaultPort, port2) == t && StartActivity(t, defaultPort, port2) == []
  {
  }

  /**
   * `Stop` on a stopped service changes nothing and calls no hook; on a running
   * one it cancels the token and calls the hook once, in that order, clears the
   * token source and keeps the port. So a second `Stop` is a no-op.
   */
  lemma StopSemantics(s: ServiceState)
    ensures !s.isRunning ==> Stopped(s) == s && StopActivity(s) == []
    ensures s.isRunning ==>
      var t := Stopped(s);
      !t.isRunning && !t.hasTokenSource && t.port == s.port &&
      StopActivity(s) == [TokenCancelled, StopInternalCalled]
    ensures Stopped(Stopped(s)) == Stopped(s) && StopActivity(Stopped(s)) == []
  {
  }

  /**
   * After `Restart` the service is running, whatever it was before, on its
   * previous port (or on the default port if that port was -1); a never-started
   * service, whose port is 0, restarts on port 0 and not on its default port.
   */
  lemma RestartSemantics(s: ServiceState, defaultPort: int)
    ensures var t := Restarted(s, defaultPort);
      t.isRunning && t.hasTokenSource && t.port == ChosenPort(s.port, defaultPort)
    ensures defaultPort != 0 ==>
      Restarted(ServiceState(0, false, false), defaultPort).port != defaultPort
  {
  }

  /** The token source: cancelling it is what tells the background run to end. */
  class CancellationTokenSource {
    var cancelled: bool

    constructor()
      ensures !cancelled
    {
      cancelled := false;
    }

    method Cancel()
      modifies this
      ensures cancelled
    {
      cancelled := true;
    }
  }

  /** `NetworkSimulatorServiceBase` with its `DefaultPort`. */
  class NetworkSimulatorService {
    const defaultPort: int
    /** `Port`. */
    var port: int
    /** `IsRunning`. */
    var isRunning: bool
    /** `_cts`. */
    var cts: CancellationTokenSource?
    /** Runs launched and stop hooks called, in order. */
    var activity: seq<Activity>

    ghost predicate Valid()
      reads this, cts
    {
      (isRunning <==> cts != null) && (cts != null ==> !cts.cancelled)
    }

    function State(): ServiceState
      reads this
    {
      ServiceState(port, isRunning, cts != null)
    }

    constructor(defaultPort: int)
      ensures Valid() && this.defaultPort == defaultPort
      ensures State() == ServiceState(0, false, false) && activity == []
    {
      this.defaultPort := defaultPort;
      port, isRunning, cts, activity := 0, false, null, [];
    }

    /** `Start(port = -1)`. */
    method Start(port: int := UseDefaultPort)
      requires Valid()
      modifies this
      ensures Valid()
      ensures State() == Started(old(State()), defaultPort, port)
      ensures activity == old(activity) + StartActivity(old(State()), defaultPort, port)
      ensures !old(isRunning) ==> fresh(cts)
      ensures old(isRunning) ==> cts == old(cts)
    {
      if isRunning {
        return;
      }
      this.port := ChosenPort(port, defaultPort);
      cts := new CancellationTokenSource();
      isRunning := true;
      activity := activity + [RunLaunched(this.port)];
    }

    /** `Stop()`. */
    method Stop()
      requires Valid()
      modifies this, cts
      ensures Valid()
      ensures State() == Stopped(old(State()))
      ensures activity == old(activity) + StopActivity(old(State()))
      ensures old(isRunning) ==> old(cts).cancelled
    {
      if !isRunning {
        return;
      }
      cts.Cancel();
      activity := activity + [TokenCancelled];
      StopInternal();
      cts := null;
      isRunning := false;
    }

    /** The concrete service's `StopInternal()`: closes its listener or socket. */
    method StopInternal()
      modifies this`activity
      ensures activity == old(activity) + [StopInternalCalled]
    {
      activity := activity + [StopInternalCalled];
    }

    /** `Restart()`: `Stop()` then `Start(Port)`. */
    method Restart()
      requires Valid()
      modifies this, cts
      ensures Valid()
      ensures State() == Restarted(old(State()), defaultPort)
      ensures activity == old(activity) + StopActivity(old(State()))
        + StartActivity(Stopped(old(State())), defaultPort, Stopped(old(State())).port)
    {
      ghost var before := activity;
      Stop();
      ghost var stopped := activity;
      Start(this.port);
      assert activity == before + (stopped[|before|..]) + activity[|stopped|..];
    }
  }

  /** Restarting a newly created service starts it on port 0, whatever its default port. */
  method RestartNeverStarted(defaultPort: int) returns (port: int, running: bool)
    ensures running && port == 0
  {
    var service := new NetworkSimulatorService(defaultPort);
    service.Restart();
    port, running := service.port, service.isRunning;
  }

  /**
   * Starting newly created TCP and UDP services with no argument runs them on
   * 50000 and 50001; restarting keeps those ports.
   */
  method StartThenRestartDefaults() returns (tcp: int, udp: int, tcpAfter: int, udpAfter: int)
    ensures tcp == tcpAfter == 50000 && udp == udpAfter == 50001
  {
    var tcpService := new NetworkSimulatorService(TcpDefaultPort);
    var udpService := new NetworkSimulatorService(UdpDefaultPort);
    tcpService.Start();
    udpService.Start();
    tcp, udp := tcpService.port, udpService.port;
    tcpService.Restart();
    udpService.Restart();
    tcpAfter, udpAfter := tcpService.port, udpService.port;
  }
}
