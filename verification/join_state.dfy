/**
  The station-join controller of the firmware: the retry counter, the two
  outcome bits of the event group, and the event handler that moves them.

  The handler is a pure transition function here: the call that asks the
  driver to associate with the access point becomes a `connect` flag in the
  result, and the event group becomes a 32-bit value that the handler only
  ever ORs bits into.
 */
module JoinState {

  /** Number of reconnect attempts allowed after a disconnect before giving up. */
  const WIFI_RETRY: nat := 10

  /** Event-group bit latched once an address has been assigned (BIT0). */
  const SUCCESS_BIT: bv32 := 1

  /** Event-group bit latched once the retry allotment is exhausted (BIT1). */
  const FAIL_BIT: bv32 := 2

  /** The two bits the waiter is interested in. */
  const OUTCOME_BITS: bv32 := SUCCESS_BIT | FAIL_BIT

  /** The width of the `retry_count` global. */
  type U32 = x: int | 0 <= x < 0x1_0000_0000

  /** Identifiers within the Wi-Fi event base; `OtherWifiEvent` stands for any identifier other than the named ones. */
  datatype WifiEventId = StaStart | StaDisconnected | OtherWifiEvent

  /** Identifiers within the IP event base; `OtherIpEvent` stands for any identifier other than got-IP. */
  datatype IpEventId = StaGotIp | OtherIpEvent

  /** An event as posted to the default event loop: a base and an identifier. */
  datatype Event = WifiEvent(wifi: WifiEventId) | IpEvent(ip: IpEventId)

  const Start: Event := WifiEvent(StaStart)
  const Disconnected: Event := WifiEvent(StaDisconnected)
  const GotIp: Event := IpEvent(StaGotIp)

  /**
    The controller's state: the retry counter and the two bits of the event
    group that anything ever sets. A freshly created group has every bit clear
    and the firmware sets no other bit, so the rest of the group stays zero.
   */
  datatype Station = Station(retry: U32, success: bool, fail: bool)

  /** What one handler invocation did: the new state and whether it asked the driver to connect. */
  datatype Reaction = Reaction(state: Station, connect: bool)

  /** The 32-bit value of the event group in state `s`. */
  function Group(s: Station): (g: bv32)
    ensures g & SUCCESS_BIT != 0 <==> s.success
    ensures g & FAIL_BIT != 0 <==> s.fail
    ensures g & !OUTCOME_BITS == 0
  {
    (if s.success then SUCCESS_BIT else 0) | (if s.fail then FAIL_BIT else 0)
  }

  /** Every bit latched in `a` is still latched in `b`. */
  predicate Latched(a: Station, b: Station) {
    (a.success ==> b.success) && (a.fail ==> b.fail)
  }

  /** The counter starts at zero and a freshly created event group has no bit set. */
  function Init(): (s: Station)
    ensures Group(s) == 0
    ensures s.retry == 0
  {
    Station(0, false, false)
  }

  /** The event handler. */
  function Step(s: Station, e: Event): (r: Reaction)
    // a connect request is issued on start, and on a disconnect that still has a retry left
    ensures r.connect <==> e == Start || (e == Disconnected && s.retry < WIFI_RETRY)
    // the counter: reset by an address, bumped by a retried disconnect, otherwise kept
    ensures e == GotIp ==> r.state.retry == 0
    ensures e == Disconnected && s.retry < WIFI_RETRY ==> r.state.retry == s.retry + 1
    ensures e != GotIp && !(e == Disconnected && s.retry < WIFI_RETRY) ==> r.state.retry == s.retry
    // the counter never climbs past the ceiling unless it already was past it
    ensures s.retry <= WIFI_RETRY ==> r.state.retry <= WIFI_RETRY
    // the bits: never cleared; success set exactly by an address, fail exactly by a disconnect with no retry left
    ensures Latched(s, r.state)
    ensures r.state.success <==> s.success || e == GotIp
    ensures r.state.fail <==> s.fail || (e == Disconnected && s.retry >= WIFI_RETRY)
  {
    if e == Start then
      Reaction(s, true)
    else if e == Disconnected then
      if s.retry < WIFI_RETRY then
        Reaction(s.(retry := s.retry + 1), true)
      else
        Reaction(s.(fail := true), false)
    else if e == GotIp then
      Reaction(s.(retry := 0, success := true), false)
    else
      Reaction(s, false)
  }

  /**
    The handler is registered for every Wi-Fi event and for the got-IP event only;
    other IP events never reach it.
   */
  predicate Registered(e: Event) {
    e.WifiEvent? || e == GotIp
  }

  /** Delivery of one event by the event loop: unregistered events are not passed to the handler. */
  function Dispatch(s: Station, e: Event): (r: Reaction)
    // the registration filter is invisible: the handler ignores everything it would drop
    ensures r == Step(s, e)
    ensures !Registered(e) ==> r == Reaction(s, false)
  {
    if Registered(e) then Step(s, e) else Reaction(s, false)
  }
}
