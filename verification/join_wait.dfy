/**
  The tail of the station initialisation: the caller blocks on the event group
  until the success or the fail bit is set, then reads the returned bits and
  reports success, failure or an unexpected wake-up, checking success first.

  The wait asks for either bit (not both) and does not clear the bits it
  returns, and it has no timeout: when no event ever sets a bit it blocks for
  good.
 */
module JoinWait {
  import opened JoinState
  import opened JoinTrace

  datatype Outcome = Connected | ConnectFailed | Unexpected

  /** The wait is released once any of the requested bits is set (wait-for-all is off). */
  predicate Released(bits: bv32) {
    bits & OUTCOME_BITS != 0
  }

  /** The three-way report on the bits the wait returned; success is checked first. */
  function Classify(bits: bv32): (r: Outcome)
    // the "unexpected" report is exactly the case the wait never returns in
    ensures r == Unexpected <==> !Released(bits)
    // success wins even when the fail bit is set as well
    ensures r == Connected <==> bits & SUCCESS_BIT != 0
    // failure is reported exactly when only the fail bit is set
    ensures r == ConnectFailed <==> bits & SUCCESS_BIT == 0 && bits & FAIL_BIT != 0
  {
    if bits & SUCCESS_BIT != 0 then Connected
    else if bits & FAIL_BIT != 0 then ConnectFailed
    else Unexpected
  }

  /** The report on the event group of controller state `s`, in terms of its two latched bits. */
  function Report(s: Station): (r: Outcome)
    ensures Released(Group(s)) <==> s.success || s.fail
    ensures r == Connected <==> s.success
    ensures r == ConnectFailed <==> !s.success && s.fail
    ensures r == Unexpected <==> !s.success && !s.fail
  {
    Classify(Group(s))
  }

  /** How the waiter fares against the events delivered while it waits. */
  datatype WaitResult =
    | Blocked
    | Woken(consumed: nat, bits: bv32, outcome: Outcome)

  /**
    The waiter, starting in state `s0` and watching the events `events` arrive:
    it wakes on the first prefix after which a bit is set, and reports on the
    bits of that moment.
   */
  method Await(s0: Station, events: seq<Event>) returns (w: WaitResult)
    ensures w.Woken? ==>
      && w.consumed <= |events|
      && w.bits == Group(Run(s0, events[..w.consumed]).state)
      && Released(w.bits)
      && w.outcome == Classify(w.bits)
      && w.outcome != Unexpected
      && forall j :: 0 <= j < w.consumed ==> !Released(Group(Run(s0, events[..j]).state))
    ensures w.Blocked? ==>
      forall j :: 0 <= j <= |events| ==> !Released(Group(Run(s0, events[..j]).state))
  {
    var s := s0;
    var i := 0;
    assert events[..0] == [];
    while i < |events| && !Released(Group(s))
      invariant 0 <= i <= |events|
      invariant s == Run(s0, events[..i]).state
      invariant forall j :: 0 <= j < i ==> !Released(Group(Run(s0, events[..j]).state))
    {
      assert events[..i + 1][..i] == events[..i];
      s := Dispatch(s, events[i]).state;
      i := i + 1;
    }
    if Released(Group(s)) {
      var bits := Group(s);
      w := Woken(i, bits, Classify(bits));
    } else {
      assert events[..|events|] == events;
      w := Blocked;
    }
  }

  /**
    A waiter that starts with neither bit set wakes on exactly one of them:
    a single event sets at most one bit, so the bits it returns are exactly
    the success bit or exactly the fail bit, never both.
   */
  lemma ExactlyOneAtWake(s0: Station, events: seq<Event>, k: nat)
    requires !s0.success && !s0.fail
    requires k <= |events|
    requires Released(Group(Run(s0, events[..k]).state))
    requires forall j :: 0 <= j < k ==> !Released(Group(Run(s0, events[..j]).state))
    ensures Group(Run(s0, events[..k]).state) == SUCCESS_BIT || Group(Run(s0, events[..k]).state) == FAIL_BIT
  {
    assert k > 0;
    assert events[..k][..k - 1] == events[..k - 1];
  }

  /**
    The bits are not cleared on exit, so a waiter that looks later than the
    first release is still released, and a success it would have seen is
    still a success.
   */
  lemma ReleaseIsStable(s0: Station, events: seq<Event>, k: nat, j: nat)
    requires k <= j <= |events|
    ensures Released(Group(Run(s0, events[..k]).state)) ==> Released(Group(Run(s0, events[..j]).state))
    ensures Report(Run(s0, events[..k]).state) == Connected ==> Report(Run(s0, events[..j]).state) == Connected
  {
    assert events[..j] == events[..k] + events[k..j];
    RunAppend(s0, events[..k], events[k..j]);
    assert Report(Run(s0, events[..k]).state) == Classify(Group(Run(s0, events[..k]).state));
    assert Report(Run(s0, events[..j]).state) == Classify(Group(Run(s0, events[..j]).state));
  }

  /**
    Both bits can be latched at once: an address, then more disconnects than
    the ceiling allows. The report is then success.
   */
  lemma BothBitsReachable()
    ensures Run(Init(), [Start, GotIp] + Disconnects(WIFI_RETRY + 1)).state.success
    ensures Run(Init(), [Start, GotIp] + Disconnects(WIFI_RETRY + 1)).state.fail
    ensures Report(Run(Init(), [Start, GotIp] + Disconnects(WIFI_RETRY + 1)).state) == Connected
  {
    var prefix := [Start, GotIp];
    RunAppend(Init(), prefix, Disconnects(WIFI_RETRY + 1));
    assert prefix[..1] == [Start];
    assert [Start][..0] == [];
    DisconnectBurst(Run(Init(), prefix).state, WIFI_RETRY + 1);
    var last := Run(Init(), prefix + Disconnects(WIFI_RETRY + 1)).state;
    assert Report(last) == Classify(Group(last));
  }

  /**
    The handler has no terminal state: after success is latched, a disconnect
    is retried again, and after the fail bit is latched a further disconnect
    still finds no retry left and leaves the bits as they are.
   */
  lemma NoTerminalState(s: Station)
    requires s.retry <= WIFI_RETRY
    ensures Run(s, [GotIp, Disconnected]).connects == 1
    ensures Run(s, [GotIp, Disconnected]).state.retry == 1
    ensures Run(s, Disconnects(WIFI_RETRY + 2)).state == Run(s, Disconnects(WIFI_RETRY + 1)).state
  {
    assert [GotIp, Disconnected][..1] == [GotIp];
    assert [GotIp][..0] == [];
    DisconnectBurst(s, WIFI_RETRY + 1);
    assert Disconnects(WIFI_RETRY + 2)[..WIFI_RETRY + 1] == Disconnects(WIFI_RETRY + 1);
  }
}
