/**
  Finite runs of the join controller: the handler applied to a sequence of
  delivered events, counting the connect requests it issues, and what such a
  run guarantees about the retry counter, the outcome bits and the number of
  connection attempts.
 */
module JoinTrace {
  import opened JoinState

  /** The state after a run and the number of connect requests issued during it. */
  datatype Trace = Trace(state: Station, connects: nat)

  function Min(a: int, b: int): int {
    if a <= b then a else b
  }

  /** Deliver the events of `es` one by one, oldest first, starting in state `s`. */
  function Run(s: Station, es: seq<Event>): (r: Trace)
    // at most one request per event
    ensures r.connects <= |es|
    // the counter stays within the ceiling once it starts within it
    ensures s.retry <= WIFI_RETRY ==> r.state.retry <= WIFI_RETRY
    // bits are never cleared
    ensures Latched(s, r.state)
    decreases |es|
  {
    if es == [] then
      Trace(s, 0)
    else
      var p := Run(s, es[..|es| - 1]);
      var q := Dispatch(p.state, es[|es| - 1]);
      Trace(q.state, p.connects + (if q.connect then 1 else 0))
  }

  /** A run over `a + b` is the run over `b` continued from where the run over `a` stopped. */
  lemma {:induction false} RunAppend(s: Station, a: seq<Event>, b: seq<Event>)
    ensures Run(s, a + b).state == Run(Run(s, a).state, b).state
    ensures Run(s, a + b).connects == Run(s, a).connects + Run(Run(s, a).state, b).connects
    decreases |b|
  {
    if b == [] {
      assert a + b == a;
    } else {
      var b' := b[..|b| - 1];
      assert (a + b)[..|a + b| - 1] == a + b';
      assert (a + b)[|a + b| - 1] == b[|b| - 1];
      RunAppend(s, a, b');
    }
  }

  /** `k` disconnect events in a row. */
  function Disconnects(k: nat): (es: seq<Event>)
    ensures |es| == k
    ensures forall i :: 0 <= i < k ==> es[i] == Disconnected
  {
    if k == 0 then [] else Disconnects(k - 1) + [Disconnected]
  }

  /**
    A burst of `k` disconnects from a counter at `s.retry`: each one retries while
    retries are left, and the fail bit is latched only by a disconnect that finds
    the allotment used up.
   */
  lemma {:induction false} DisconnectBurst(s: Station, k: nat)
    requires s.retry <= WIFI_RETRY
    ensures Run(s, Disconnects(k)).connects == Min(k, WIFI_RETRY - s.retry)
    ensures Run(s, Disconnects(k)).state.retry == Min(s.retry + k, WIFI_RETRY)
    ensures Run(s, Disconnects(k)).state.fail <==> s.fail || k > WIFI_RETRY - s.retry
    ensures Run(s, Disconnects(k)).state.success == s.success
  {
    if k > 0 {
      DisconnectBurst(s, k - 1);
      assert Disconnects(k)[..k - 1] == Disconnects(k - 1);
    }
  }

  /**
    From a fresh controller, the interface start followed by `k` disconnects
    issues one initial request plus one per retry, at most `WIFI_RETRY` of them,
    and latches the fail bit exactly when the disconnects outnumber the retries.
   */
  lemma FreshJoin(k: nat)
    ensures Run(Init(), [Start] + Disconnects(k)).connects == 1 + Min(k, WIFI_RETRY)
    ensures Run(Init(), [Start] + Disconnects(k)).state.retry == Min(k, WIFI_RETRY)
    ensures Run(Init(), [Start] + Disconnects(k)).state.fail <==> k > WIFI_RETRY
    ensures !Run(Init(), [Start] + Disconnects(k)).state.success
  {
    RunAppend(Init(), [Start], Disconnects(k));
    assert [Start][..0] == [];
    DisconnectBurst(Run(Init(), [Start]).state, k);
  }

  /**
    An address assignment restores the full allotment: whatever happened
    before, `k` further disconnects cost `min(k, WIFI_RETRY)` requests and
    latch the fail bit only when `k` exceeds the ceiling.
   */
  lemma GotIpRestoresAllotment(s: Station, k: nat)
    ensures Run(s, [GotIp] + Disconnects(k)).connects == Min(k, WIFI_RETRY)
    ensures Run(s, [GotIp] + Disconnects(k)).state.retry == Min(k, WIFI_RETRY)
    ensures Run(s, [GotIp] + Disconnects(k)).state.fail <==> s.fail || k > WIFI_RETRY
    ensures Run(s, [GotIp] + Disconnects(k)).state.success
  {
    RunAppend(s, [GotIp], Disconnects(k));
    assert [GotIp][..0] == [];
    DisconnectBurst(Run(s, [GotIp]).state, k);
  }

  // An independent description of a run, by counting events rather than by
  // replaying the handler.

  /** Number of disconnect events in `es`. */
  ghost function CountDisconnects(es: seq<Event>): nat {
    if es == [] then 0
    else CountDisconnects(es[..|es| - 1]) + (if es[|es| - 1] == Disconnected then 1 else 0)
  }

  /** Number of interface-start events in `es`. */
  ghost function CountStarts(es: seq<Event>): nat {
    if es == [] then 0
    else CountStarts(es[..|es| - 1]) + (if es[|es| - 1] == Start then 1 else 0)
  }

  /** The events after the last address assignment (all of `es` if there is none). */
  ghost function SinceLastGotIp(es: seq<Event>): seq<Event> {
    if es == [] then []
    else if es[|es| - 1] == GotIp then []
    else SinceLastGotIp(es[..|es| - 1]) + [es[|es| - 1]]
  }

  /**
    The counter after `es` from a counter at `r0`: the disconnects since the
    last address (or since the start, counted on top of `r0`), capped at the ceiling.
   */
  ghost function RetrySpec(r0: nat, es: seq<Event>): nat {
    Min(WIFI_RETRY, (if GotIp in es then 0 else r0) + CountDisconnects(SinceLastGotIp(es)))
  }

  /** The event at `i` is a disconnect that finds the retry allotment used up. */
  ghost predicate GivesUpAt(r0: nat, es: seq<Event>, i: nat)
    requires i < |es|
  {
    es[i] == Disconnected && RetrySpec(r0, es[..i]) == WIFI_RETRY
  }

  /** Number of disconnects in `es` that give up instead of retrying. */
  ghost function CountGiveUps(r0: nat, es: seq<Event>): nat {
    if es == [] then 0
    else CountGiveUps(r0, es[..|es| - 1]) + (if GivesUpAt(r0, es, |es| - 1) then 1 else 0)
  }

  lemma {:induction false} GiveUpsAtMostDisconnects(r0: nat, es: seq<Event>)
    ensures CountGiveUps(r0, es) <= CountDisconnects(es)
  {
    if es != [] {
      GiveUpsAtMostDisconnects(r0, es[..|es| - 1]);
    }
  }

  /**
    The counter after any run equals the independent count: disconnects since
    the last address assignment, capped at the ceiling.
   */
  lemma {:induction false} RetryClosedForm(s: Station, es: seq<Event>)
    requires s.retry <= WIFI_RETRY
    ensures Run(s, es).state.retry == RetrySpec(s.retry, es)
    decreases |es|
  {
    if es != [] {
      var p := es[..|es| - 1];
      var e := es[|es| - 1];
      assert es == p + [e];
      RetryClosedForm(s, p);
      assert es[|p|] == e;
    }
  }

  /** The success bit after a run is set exactly when it was set before or an address was assigned. */
  lemma {:induction false} SuccessClosedForm(s: Station, es: seq<Event>)
    ensures Run(s, es).state.success <==> s.success || GotIp in es
    decreases |es|
  {
    if es != [] {
      var p := es[..|es| - 1];
      var e := es[|es| - 1];
      assert es == p + [e];
      SuccessClosedForm(s, p);
      assert es[|p|] == e;
    }
  }

  /**
    The fail bit after a run is set exactly when it was set before or some
    disconnect found the retry allotment used up.
   */
  lemma {:induction false} FailClosedForm(s: Station, es: seq<Event>)
    requires s.retry <= WIFI_RETRY
    ensures Run(s, es).state.fail <==> s.fail || exists i :: 0 <= i < |es| && GivesUpAt(s.retry, es, i)
    decreases |es|
  {
    if es != [] {
      var p := es[..|es| - 1];
      var e := es[|es| - 1];
      FailClosedForm(s, p);
      RetryClosedForm(s, p);
      forall i | 0 <= i < |p|
        ensures GivesUpAt(s.retry, es, i) <==> GivesUpAt(s.retry, p, i)
      {
        assert es[..i] == p[..i];
      }
      assert es[..|p|] == p;
      if Run(s, es).state.fail && !s.fail && !GivesUpAt(s.retry, es, |p|) {
        var i :| 0 <= i < |p| && GivesUpAt(s.retry, p, i);
        assert GivesUpAt(s.retry, es, i);
      }
    }
  }

  /**
    Every interface start issues a connect request, and so does every
    disconnect except those that give up.
   */
  lemma {:induction false} ConnectsClosedForm(s: Station, es: seq<Event>)
    requires s.retry <= WIFI_RETRY
    ensures Run(s, es).connects == CountStarts(es) + CountDisconnects(es) - CountGiveUps(s.retry, es)
    decreases |es|
  {
    if es != [] {
      var p := es[..|es| - 1];
      ConnectsClosedForm(s, p);
      RetryClosedForm(s, p);
      GiveUpsAtMostDisconnects(s.retry, p);
      assert es[..|p|] == p;
    }
  }
}
