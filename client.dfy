/**
 * `Mycila::MQTTClass`: the lifecycle state machine of the MQTT client, its
 * listener registry and the handlers of the three events the library client
 * raises (connected, disconnected, message).
 *
 * The library client is the flag `hasClient` (the `_mqttClient` pointer is
 * non-null) and the trace `sent` of the calls made on it; user callbacks are the
 * trace `calls` of their invocations.  `millis()` is the parameter `now`.
 */
module Mqtt {
  import opened Optional
  import opened Trace
  import opened Listeners
  import opened TopicMatcher

  type U16 = x: int | 0 <= x < 0x1_0000
  type U32 = x: int | 0 <= x < 0x1_0000_0000

  /** MYCILA_MQTT_KEEPALIVE (src/MycilaMQTT.h:52-54). */
  const KeepAliveSeconds: U16 := 60

  /** MYCILA_MQTT_RECONNECT_INTERVAL, in seconds (src/MycilaMQTT.h:20-22), and in milliseconds. */
  const ReconnectIntervalSeconds := 5
  const ReconnectIntervalMillis := ReconnectIntervalSeconds * 1000

  /** The client states; PUBLISHING is the state after the connect callback has run. */
  datatype State = Disabled | Connecting | Connected | Disconnected | Publishing

  /** The configuration; the certificate material of the header is not modelled. */
  datatype Config = Config(
    server: string,
    port: U16,
    secured: bool,
    keepAlive: U16,
    username: string,
    password: string,
    clientId: string,
    willTopic: string,
    enabled: bool,
    baseTopic: string)

  /** A default-constructed `Config` (src/MycilaMQTT.h:84-99): port 1883, not secured, keep-alive 60. */
  const DefaultConfig := Config("", 1883, false, KeepAliveSeconds, "", "", "", "", false, "")

  /** The reasons the library reports on disconnect; the others carry their code. */
  datatype DisconnectReason =
    | TcpDisconnected
    | UnacceptableProtocolVersion
    | IdentifierRejected
    | ServerUnavailable
    | MalformedCredentials
    | NotAuthorized
    | OtherReason(code: int)

  /** Every text `_disconnectReason` can hold. */
  const ReasonTexts: set<string> := {
    "TCP disconnected", "Unacceptable protocol version", "ID rejected",
    "Server unavailable", "Malformed credentials", "Not authorized", "Unknown error"}

  /** The fixed text of a disconnect reason (src/MycilaMQTT.cpp:135-157). */
  function ReasonText(reason: DisconnectReason): (s: string)
    ensures s in ReasonTexts
    ensures reason.OtherReason? <==> s == "Unknown error"
  {
    match reason
    case TcpDisconnected => "TCP disconnected"
    case UnacceptableProtocolVersion => "Unacceptable protocol version"
    case IdentifierRejected => "ID rejected"
    case ServerUnavailable => "Server unavailable"
    case MalformedCredentials => "Malformed credentials"
    case NotAuthorized => "Not authorized"
    case OtherReason(_) => "Unknown error"
  }

  /** Each named reason has a text of its own: the last error tells the reasons apart. */
  lemma ReasonTextDistinct(a: DisconnectReason, b: DisconnectReason)
    requires ReasonText(a) == ReasonText(b)
    ensures a.OtherReason? <==> b.OtherReason?
    ensures !a.OtherReason? ==> a == b
  {
  }

  /** `millis() - _lastReconnectTry` on 32-bit unsigned values: the time since, across a wrap. */
  function Elapsed(now: U32, since: U32): (r: U32)
    ensures since <= now ==> r == now - since
    ensures now < since ==> r == now + 0x1_0000_0000 - since
  {
    (now - since) % 0x1_0000_0000
  }

  /** A reconnect is due once the interval has elapsed since the last try. */
  predicate ReconnectDue(now: U32, lastTry: U32) {
    Elapsed(now, lastTry) >= ReconnectIntervalMillis
  }

  /** The guard of `_connect` (src/MycilaMQTT.cpp:85-88): a server, a base topic and a port are set. */
  predicate Usable(cfg: Config) {
    cfg.server != [] && cfg.baseTopic != [] && cfg.port > 0
  }

  /** What `_connect` asks of the library client: a connect, only with a usable configuration. */
  function ConnectActions(cfg: Config): seq<Action> {
    if Usable(cfg) then [ClientConnect] else []
  }

  /** The invocation of the connect callback, when one is set. */
  function ConnectCalls(cb: Option<CallbackId>): seq<Invocation> {
    match cb
    case None => []
    case Some(c) => [ConnectCall(c)]
  }

  // ---------------------------------------------------------------------------
  // Transitions

  /** The transitions the comments of the header's state enum document (src/MycilaMQTT.h:61-72). */
  predicate Documented(a: State, b: State) {
    (a == Disabled && b == Connecting) ||
    (a == Connecting && b == Connected) ||
    (a == Connected && b == Disconnected) ||
    (a == Publishing && b == Disconnected) ||
    (b == Disabled && (a == Connected || a == Disconnected || a == Publishing))
  }

  /** The state changes a method may make; `TransitionsTaken` shows the code making them. */
  predicate CodeStep(a: State, b: State) {
    (a == Disabled && b == Connecting) ||                      // begin
    (a != Disabled && b == Disabled) ||                        // end
    (a == Disconnected && b == Connecting) ||                  // loop, reconnect
    (a == Connected && b == Publishing) ||                     // loop, after the connect callback
    (a != Disabled && (b == Connected || b == Disconnected))   // connect and disconnect events
  }

  /** A state change of one call: none, or a step the code performs. */
  predicate Transition(a: State, b: State) {
    a == b || CodeStep(a, b)
  }

  /** Every documented transition lies within `CodeStep`. */
  lemma DocumentedAreCodeSteps(a: State, b: State)
    requires Documented(a, b)
    ensures CodeStep(a, b)
  {
  }

  /** `CodeStep` also allows four transitions the comments omit. */
  lemma UndocumentedCodeSteps()
    ensures CodeStep(Disconnected, Connecting) && !Documented(Disconnected, Connecting)
    ensures CodeStep(Connected, Publishing) && !Documented(Connected, Publishing)
    ensures CodeStep(Connecting, Disabled) && !Documented(Connecting, Disabled)
    ensures CodeStep(Connecting, Disconnected) && !Documented(Connecting, Disconnected)
  {
  }

  /** PUBLISHING is entered only from CONNECTED, and DISABLED is left only for CONNECTING. */
  lemma StepsIntoPublishingAndOutOfDisabled(a: State, b: State)
    requires CodeStep(a, b)
    ensures b == Publishing ==> a == Connected
    ensures a == Disabled ==> b == Connecting
  {
  }

  /** All the fields of a client, as one value. */
  datatype Fields = Fields(
    state: State,
    listeners: seq<Listener>,
    onConnect: Option<CallbackId>,
    lastError: Option<string>,
    async: bool,
    config: Config,
    lastReconnectTry: U32,
    hasClient: bool,
    sent: seq<Action>,
    calls: seq<Invocation>)

  class Client {
    var state: State
    var listeners: seq<Listener>
    var onConnect: Option<CallbackId>
    /** `_disconnectReason`, which the header calls `_lastError`. */
    var lastError: Option<string>
    var async: bool
    var config: Config
    var lastReconnectTry: U32
    /** `_mqttClient != nullptr`. */
    var hasClient: bool
    /** The calls made on the library client, oldest first. */
    var sent: seq<Action>
    /** The user callbacks invoked, oldest first. */
    var calls: seq<Invocation>

    function View(): Fields
      reads this
    {
      Fields(state, listeners, onConnect, lastError, async, config, lastReconnectTry, hasClient, sent, calls)
    }

    /** A library client exists exactly while enabled; the last error is one of the fixed texts. */
    predicate Valid()
      reads this
    {
      (hasClient <==> state != Disabled) &&
      (lastError.Some? ==> lastError.value in ReasonTexts)
    }

    /** The initial field values (src/MycilaMQTT.h:124-131). */
    constructor()
      ensures Valid()
      ensures View() == Fields(Disabled, [], None, None, false, DefaultConfig, 0, false, [], [])
    {
      state := Disabled;
      listeners := [];
      onConnect := None;
      lastError := None;
      async := false;
      config := DefaultConfig;
      lastReconnectTry := 0;
      hasClient := false;
      sent := [];
      calls := [];
    }

    // -------------------------------------------------------------------------
    // Queries

    /** `isEnabled`: not DISABLED, which is exactly while a library client exists. */
    function IsEnabled(): (r: bool)
      reads this
      ensures Valid() ==> (r <==> hasClient)
    {
      state != Disabled
    }

    /** `isConnected`: CONNECTED only, so false again once the client is PUBLISHING. */
    function IsConnected(): (r: bool)
      reads this
      ensures r ==> IsEnabled()
      ensures state == Publishing ==> !r
    {
      state == Connected
    }

    function IsAsync(): bool
      reads this
    {
      async
    }

    /** `getLastError`: none yet, or the text of the last disconnect reason. */
    function GetLastError(): (r: Option<string>)
      reads this
      ensures Valid() && r.Some? ==> r.value in ReasonTexts
    {
      lastError
    }

    // -------------------------------------------------------------------------
    // Setters

    /** `setAsync`: only the flag changes, and `isAsync` reads it back. */
    method SetAsync(b: bool)
      modifies this
      ensures View() == old(View()).(async := b)
      ensures IsAsync() == b
    {
      async := b;
    }

    /** `onConnect`: the new callback replaces the one held. */
    method SetOnConnect(cb: Option<CallbackId>)
      modifies this
      ensures View() == old(View()).(onConnect := cb)
    {
      onConnect := cb;
    }

    // -------------------------------------------------------------------------
    // Lifecycle

    /**
     * `begin`: no effect unless DISABLED; takes the configuration, and when it is
     * enabled creates the library client and connects.
     */
    method Begin(cfg: Config)
      requires Valid()
      modifies this
      ensures Valid() && Transition(old(state), state)
      ensures old(state) != Disabled ==> View() == old(View())
      ensures old(state) == Disabled && !cfg.enabled ==> View() == old(View()).(config := cfg)
      ensures old(state) == Disabled && cfg.enabled ==>
                View() == old(View()).(config := cfg, hasClient := true, state := Connecting,
                                       sent := old(sent) + ConnectActions(cfg))
    {
      if state != Disabled {
        return;
      }
      config := cfg;
      if !config.enabled {
        return;
      }
      hasClient := true;
      Connect();
    }

    /**
     * `_connect`: CONNECTING in every case; the library client is asked to connect
     * only with a usable configuration, else the client stays CONNECTING.
     */
    method Connect()
      requires hasClient
      modifies this
      ensures View() == old(View()).(state := Connecting, sent := old(sent) + ConnectActions(old(config)))
    {
      state := Connecting;
      if config.server == [] || config.baseTopic == [] || config.port <= 0 {
        return;
      }
      sent := sent + [ClientConnect];
    }

    /**
     * `end`: nothing from DISABLED; otherwise one retained "offline" publish to the
     * will topic, one disconnect, the client dropped, the reconnect clock reset.
     */
    method End()
      requires Valid()
      modifies this
      ensures Valid() && Transition(old(state), state)
      ensures old(state) == Disabled ==> View() == old(View())
      ensures old(state) != Disabled ==>
                View() == old(View()).(state := Disabled, hasClient := false, lastReconnectTry := 0,
                                       sent := old(sent) + [ClientPublish(old(config).willTopic, true, "offline"), ClientDisconnect])
    {
      if state == Disabled {
        return;
      }
      state := Disabled;
      sent := sent + [ClientPublish(config.willTopic, true, "offline")];
      sent := sent + [ClientDisconnect];
      hasClient := false;
      lastReconnectTry := 0;
    }

    /**
     * `loop`: from DISCONNECTED, once the interval has elapsed, a new try; from
     * CONNECTED, one call of the connect callback and PUBLISHING; nothing otherwise.
     */
    method Loop(now: U32)
      requires Valid()
      modifies this
      ensures Valid() && Transition(old(state), state)
      ensures old(state) == Disconnected && ReconnectDue(now, old(lastReconnectTry)) ==>
                View() == old(View()).(lastReconnectTry := now, state := Connecting,
                                       sent := old(sent) + ConnectActions(old(config)))
      ensures old(state) == Connected ==>
                View() == old(View()).(state := Publishing, calls := old(calls) + ConnectCalls(old(onConnect)))
      ensures old(state) != Connected && !(old(state) == Disconnected && ReconnectDue(now, old(lastReconnectTry))) ==>
                View() == old(View())
    {
      if state == Disconnected && Elapsed(now, lastReconnectTry) >= ReconnectIntervalMillis {
        lastReconnectTry := now;
        Connect();
        return;
      }
      if state == Connected {
        if onConnect.Some? {
          calls := calls + [ConnectCall(onConnect.value)];
        }
        state := Publishing;
        return;
      }
    }

    // -------------------------------------------------------------------------
    // Messaging

    /**
     * `publish`: false and no effect unless connected; else one publish, and the
     * result says whether the library gave it a packet id (`packetId`, which the
     * library chooses).
     */
    method Publish(topic: string, payload: string, retain: bool, packetId: U16) returns (ok: bool)
      modifies this
      ensures !old(IsConnected()) ==> !ok && View() == old(View())
      ensures old(IsConnected()) ==>
                (ok <==> packetId != 0) && View() == old(View()).(sent := old(sent) + [ClientPublish(topic, retain, payload)])
    {
      if !IsConnected() {
        return false;
      }
      sent := sent + [ClientPublish(topic, retain, payload)];
      return packetId != 0;
    }

    /** `subscribe`: the listener is always registered; the subscribe is sent only when connected. */
    method Subscribe(filter: string, callback: CallbackId)
      modifies this
      ensures View() == old(View()).(listeners := old(listeners) + [Listener(filter, callback)],
                                     sent := old(sent) + (if old(IsConnected()) then [ClientSubscribe(filter)] else []))
    {
      listeners := listeners + [Listener(filter, callback)];
      if IsConnected() {
        sent := sent + [ClientSubscribe(filter)];
      }
    }

    /**
     * `unsubscribe`, with the erase-remove it evidently intends: one unsubscribe
     * sent, every listener with exactly that filter dropped, the others kept in order.
     */
    method Unsubscribe(filter: string)
      requires hasClient
      modifies this
      ensures View() == old(View()).(sent := old(sent) + [ClientUnsubscribe(filter)],
                                     listeners := RemoveAll(old(listeners), filter))
    {
      sent := sent + [ClientUnsubscribe(filter)];
      listeners := RemoveAll(listeners, filter);
    }

    // -------------------------------------------------------------------------
    // Events of the library client

    /**
     * `_onMqttConnect`: a retained "online" publish to the will topic, one
     * subscribe per listener in registration order, then CONNECTED.
     */
    method OnMqttConnect(sessionPresent: bool)
      requires Valid() && hasClient
      modifies this
      ensures Valid() && Transition(old(state), state)
      ensures View() == old(View()).(state := Connected,
                                     sent := old(sent) + [ClientPublish(old(config).willTopic, true, "online")] +
                                             SubscribeAll(old(listeners)))
    {
      sent := sent + [ClientPublish(config.willTopic, true, "online")];
      SubscribeListeners();
      state := Connected;
    }

    /** The loop of `_onMqttConnect` (src/MycilaMQTT.cpp:127-131): one subscribe per listener, in order. */
    method SubscribeListeners()
      modifies this
      ensures View() == old(View()).(sent := old(sent) + SubscribeAll(old(listeners)))
    {
      for k := 0 to |listeners|
        invariant View() == old(View()).(sent := old(sent) + SubscribeAll(old(listeners)[..k]))
      {
        SubscribeAllSnoc(listeners[..k], listeners[k]);
        assert listeners[..k + 1] == listeners[..k] + [listeners[k]];
        sent := sent + [ClientSubscribe(listeners[k].filter)];
      }
      assert listeners[..|listeners|] == listeners;
    }

    /** `_onMqttDisconnect`: the reason's text becomes the last error, and the client DISCONNECTED. */
    method OnMqttDisconnect(reason: DisconnectReason)
      requires Valid() && hasClient
      modifies this
      ensures Valid() && Transition(old(state), state)
      ensures View() == old(View()).(state := Disconnected, lastError := Some(ReasonText(reason)))
    {
      lastError := Some(ReasonText(reason));
      state := Disconnected;
    }

    /**
     * `_onMqttMessage`: every listener whose filter matches the topic is called
     * with the topic and the payload, in registration order.
     */
    method OnMqttMessage(topic: string, payload: string)
      modifies this
      ensures View() == old(View()).(calls := old(calls) + Dispatch(old(listeners), topic, payload, |old(listeners)|))
    {
      ghost var v0 := View();
      for k := 0 to |listeners|
        invariant View() == v0.(calls := v0.calls + Dispatch(v0.listeners, topic, payload, k))
      {
        if FixedMatches(listeners[k].filter, topic) {
          calls := calls + [MessageCall(k, listeners[k].callback, topic, payload)];
        }
      }
    }
  }

  /**
   * Publishing works between the connect event and the next loop only: the loop
   * that runs the connect callback moves the client to PUBLISHING, where
   * `isConnected` is false and `publish` refuses.
   */
  method PublishStopsAfterFirstLoop() returns (before: bool, after: bool)
    ensures before && !after
  {
    var c := new Client();
    c.Begin(DefaultConfig.(enabled := true, server := "broker", baseTopic := "home"));
    c.OnMqttConnect(false);
    before := c.Publish("home/state", "on", false, 1);
    c.Loop(0);
    after := c.Publish("home/state", "off", false, 2);
  }

  /** The states of one client over a run of calls, oldest first. */
  const Journey: seq<State> := [
    Disabled, Connecting, Disabled,
    Connecting, Disconnected, Connecting, Connected, Disconnected, Disabled,
    Connecting, Connected, Disabled,
    Connecting, Connected, Publishing, Disconnected, Disabled,
    Connecting, Connected, Publishing, Disabled]

  /** Some call of the run moves the client from `a` to `b`. */
  predicate Taken(trace: seq<State>, a: State, b: State) {
    exists k :: 0 <= k < |trace| - 1 && trace[k] == a && trace[k + 1] == b
  }

  /** The run takes every transition the header documents, and four more. */
  lemma JourneyCovers()
    ensures forall a, b :: Documented(a, b) ==> Taken(Journey, a, b)
    ensures Taken(Journey, Disconnected, Connecting) && Taken(Journey, Connected, Publishing)
    ensures Taken(Journey, Connecting, Disabled) && Taken(Journey, Connecting, Disconnected)
  {
    assert Journey[0] == Disabled && Journey[1] == Connecting;
    assert Journey[1] == Connecting && Journey[2] == Disabled;
    assert Journey[3] == Connecting && Journey[4] == Disconnected;
    assert Journey[4] == Disconnected && Journey[5] == Connecting;
    assert Journey[5] == Connecting && Journey[6] == Connected;
    assert Journey[6] == Connected && Journey[7] == Disconnected;
    assert Journey[7] == Disconnected && Journey[8] == Disabled;
    assert Journey[10] == Connected && Journey[11] == Disabled;
    assert Journey[13] == Connected && Journey[14] == Publishing;
    assert Journey[14] == Publishing && Journey[15] == Disconnected;
    assert Journey[19] == Publishing && Journey[20] == Disabled;
  }

  /** Where each leg of the run starts and ends: a disabled client, its reconnect clock at 0. Each leg returns the state after each of its calls. */
  predicate AtRest(c: Client)
    reads c
  {
    c.Valid() && c.state == Disabled && c.lastReconnectTry == 0
  }

  /** Begin, then end before the broker answers: CONNECTING to DISABLED. */
  method AbortedConnect(c: Client, cfg: Config) returns (t: seq<State>)
    requires AtRest(c) && cfg.enabled
    modifies c
    ensures AtRest(c) && t == [Connecting, Disabled]
  {
    c.Begin(cfg);
    t := [c.state];
    c.End();
    t := t + [c.state];
  }

  /** A failed first try, the timed retry, a session that drops, then end. */
  method Reconnect(c: Client, cfg: Config) returns (t: seq<State>)
    requires AtRest(c) && cfg.enabled
    modifies c
    ensures AtRest(c) && t == [Connecting, Disconnected, Connecting, Connected, Disconnected, Disabled]
  {
    c.Begin(cfg);
    t := [c.state];
    c.OnMqttDisconnect(TcpDisconnected);
    t := t + [c.state];
    c.Loop(ReconnectIntervalMillis);
    t := t + [c.state];
    c.OnMqttConnect(false);
    t := t + [c.state];
    c.OnMqttDisconnect(ServerUnavailable);
    t := t + [c.state];
    c.End();
    t := t + [c.state];
  }

  /** A session ended before any loop: CONNECTED to DISABLED. */
  method EndConnected(c: Client, cfg: Config) returns (t: seq<State>)
    requires AtRest(c) && cfg.enabled
    modifies c
    ensures AtRest(c) && t == [Connecting, Connected, Disabled]
  {
    c.Begin(cfg);
    t := [c.state];
    c.OnMqttConnect(false);
    t := t + [c.state];
    c.End();
    t := t + [c.state];
  }

  /** A session past its first loop, dropped by the broker, then end. */
  method DropPublishing(c: Client, cfg: Config) returns (t: seq<State>)
    requires AtRest(c) && cfg.enabled
    modifies c
    ensures AtRest(c) && t == [Connecting, Connected, Publishing, Disconnected, Disabled]
  {
    c.Begin(cfg);
    t := [c.state];
    c.OnMqttConnect(false);
    t := t + [c.state];
    c.Loop(0);
    t := t + [c.state];
    c.OnMqttDisconnect(NotAuthorized);
    t := t + [c.state];
    c.End();
    t := t + [c.state];
  }

  /** A session past its first loop, ended by the user: PUBLISHING to DISABLED. */
  method EndPublishing(c: Client, cfg: Config) returns (t: seq<State>)
    requires AtRest(c) && cfg.enabled
    modifies c
    ensures AtRest(c) && t == [Connecting, Connected, Publishing, Disabled]
  {
    c.Begin(cfg);
    t := [c.state];
    c.OnMqttConnect(true);
    t := t + [c.state];
    c.Loop(0);
    t := t + [c.state];
    c.End();
    t := t + [c.state];
  }

  /** One client driven through the five legs, one after the other. */
  method Drive() returns (trace: seq<State>)
    ensures trace == Journey
  {
    var cfg := DefaultConfig.(enabled := true, server := "broker", baseTopic := "home");
    var c := new Client();
    trace := [c.state];
    var t := AbortedConnect(c, cfg);
    trace := trace + t;
    t := Reconnect(c, cfg);
    trace := trace + t;
    t := EndConnected(c, cfg);
    trace := trace + t;
    t := DropPublishing(c, cfg);
    trace := trace + t;
    t := EndPublishing(c, cfg);
    trace := trace + t;
  }

  /**
   * The transitions happen: one client driven through begin, end, loop and the
   * connect and disconnect events passes through exactly `Journey`.  So the code
   * takes every documented transition and, beyond them, goes from DISCONNECTED to
   * CONNECTING, from CONNECTED to PUBLISHING, and from CONNECTING to DISABLED and
   * to DISCONNECTED.
   */
  method TransitionsTaken() returns (trace: seq<State>)
    ensures trace == Journey
    ensures forall a, b :: Documented(a, b) ==> Taken(trace, a, b)
    ensures Taken(trace, Disconnected, Connecting) && !Documented(Disconnected, Connecting)
    ensures Taken(trace, Connected, Publishing) && !Documented(Connected, Publishing)
    ensures Taken(trace, Connecting, Disabled) && !Documented(Connecting, Disabled)
    ensures Taken(trace, Connecting, Disconnected) && !Documented(Connecting, Disconnected)
  {
    trace := Drive();
    JourneyCovers();
  }
}
