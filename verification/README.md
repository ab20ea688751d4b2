# Wi-Fi station join controller

A Dafny model of how the ESP32 firmware joins a Wi-Fi network, with proofs about it.
The station has a retry counter, `retry_count`.
It also has an event group that holds two outcome bits, `SUCCESS_BIT` and `FAIL_BIT`.
The event handler reacts to three events:

- **interface started:** it asks the driver to connect.
- **disconnected:** it asks the driver to connect again while fewer than `WIFI_RETRY` (10) retries have been used. Otherwise it latches `FAIL_BIT`.
- **got IP:** it resets the counter and latches `SUCCESS_BIT`.

The initialising task blocks until either bit is set. It then reports success, failure or an unexpected wake-up, and it checks success first.

Files:

- `join_state.dfy` (module `JoinState`): the constants, the events, the state record `Station` (`{retry, success, fail}`) and the handler.
  The handler is the pure transition function `Step(state, event) -> (state', connect)`.
  The `connect` flag stands for the call to `esp_wifi_connect()`.
  `Group` gives the 32-bit value of the event group.
  `Dispatch` applies the handler registration: every Wi-Fi event, plus the got-IP event.
- `join_trace.dfy` (module `JoinTrace`): `Run` replays a finite sequence of events and counts the connect requests.
  This module also holds lemmas about whole runs: the retry bound, latching, the counting results, and closed forms that count events instead of replaying the handler.
- `join_wait.dfy` (module `JoinWait`): the blocking wait (`Await`), the three-way classification (`Classify`), and the properties that follow from waiting for either bit without clearing it on exit.

`retry_count` is a `uint32_t`. The model gives it a 32-bit subset type. The handler increments it only while it is below 10, so it can never wrap.

## Model

| member | source | states |
|---|---|---|
| JoinState.Step | main/main.c:35-62 | A connect request is issued exactly on interface start, or on a disconnect while `retry < WIFI_RETRY`. Got-IP resets the counter to 0. A retried disconnect raises it by exactly 1. Every other event leaves it unchanged. The counter never passes the ceiling if it started within it. No bit is ever cleared. The success bit becomes set exactly on got-IP. The fail bit becomes set exactly on a disconnect with no retry left. |
| JoinState.Dispatch | main/main.c:77-86 | The handler receives any Wi-Fi event and only the got-IP IP event. This filter changes nothing: every dropped event would have been ignored by the handler anyway. |
| JoinState.Init | main/main.c:33 | The counter starts at 0 (line 33). The event group, freshly created by `xEventGroupCreate` at line 66, reads 0, so neither outcome bit is set. |
| JoinState.Group | main/main.c:30-31 | In the event group value, bit 0 is the success bit and bit 1 is the fail bit. No other bit is ever set. |
| JoinTrace.Run | main/main.c:33-62 | Over any run: there is at most one connect request per event, a counter that starts within `WIFI_RETRY` stays within it, and a latched bit stays latched. |
| JoinTrace.DisconnectBurst | main/main.c:41-54 | From counter `r`, `k` disconnects issue `min(k, WIFI_RETRY - r)` requests and leave the counter at `min(r + k, WIFI_RETRY)`. They set the fail bit iff `k > WIFI_RETRY - r`. The success bit is untouched. |
| JoinTrace.FreshJoin | main/main.c:37-54 | From a fresh controller, start followed by `k` disconnects issues `1 + min(k, WIFI_RETRY)` requests. The fail bit ends up set iff `k > WIFI_RETRY`. Success is not set. |
| JoinTrace.GotIpRestoresAllotment | main/main.c:43-61 | From any state, got-IP followed by `k` disconnects issues `min(k, WIFI_RETRY)` requests, so the full retry allotment is restored. Fail is set iff it was set before or `k > WIFI_RETRY`. Success is set. |
| JoinTrace.RetryClosedForm | main/main.c:41-61 | After any run, the counter equals the number of disconnects since the last got-IP (plus the starting counter if there was no got-IP), capped at `WIFI_RETRY`. |
| JoinTrace.SuccessClosedForm | main/main.c:55-61 | After a run, the success bit is set iff it was set before or the run contains a got-IP event. |
| JoinTrace.FailClosedForm | main/main.c:41-52 | After a run, the fail bit is set iff it was set before or some disconnect in the run found the counter at `WIFI_RETRY`. |
| JoinTrace.ConnectsClosedForm | main/main.c:35-62 | The number of connect requests in a run equals the number of start events plus the number of disconnects, minus the disconnects that gave up. |
| JoinWait.Classify | main/main.c:104-115 | The report is success iff the success bit is set, even when the fail bit is also set. It is failure iff the success bit is clear and the fail bit is set. It is "unexpected" iff neither bit is set, which is exactly when the wait would not have been released. |
| JoinWait.Report | main/main.c:101-115 | The report on a `Station`'s event group: the wait is released iff either bit is latched. The report is success iff success is latched. It is failure iff only fail is latched. It is unexpected iff neither bit is latched. |
| JoinWait.Await | main/main.c:101-115 | The waiter wakes at the first prefix of the delivered events after which a bit is set. It returns that moment's bits and their report, which is never "unexpected". If no prefix sets a bit, it stays blocked. |
| JoinWait.ExactlyOneAtWake | main/main.c:41-61 | When the waiter starts with neither bit set, the bits at its first wake are exactly `SUCCESS_BIT` or exactly `FAIL_BIT`, never both, because one event sets at most one bit. |
| JoinWait.ReleaseIsStable | main/main.c:101-102 | The bits are not cleared on exit. So once the wait is released it stays released for a later observer, and a success report stays a success report. |
| JoinWait.BothBitsReachable | main/main.c:41-61 | The sequence start, got-IP, then `WIFI_RETRY + 1` disconnects latches both bits, and the report is success. |
| JoinWait.NoTerminalState | main/main.c:41-61 | There is no terminal state. After got-IP, a disconnect is retried (one request, counter 1). Once the allotment is exhausted, a further disconnect changes nothing. |

Behaviour of the handler worth knowing:

- The handler has no terminal state: it keeps reacting after a bit is latched (`NoTerminalState`).
- Both bits can be latched, but only after the first wake: the wake itself sees exactly one bit (`ExactlyOneAtWake`). When both are set, the report gives success (`BothBitsReachable`).
- The handler is registered for every Wi-Fi event (`ESP_EVENT_ANY_ID`, main/main.c:77-81); the events it does not name are ignored (`Dispatch`).

## Left out

- Stack and driver initialisation: `esp_netif_init`, creating the default event loop, `esp_wifi_init`, registering the handlers, setting the mode and config, and `esp_wifi_start` (main/main.c:68, 69, 73, 77, 82, 95-97). These are foreign calls with no decision logic. Each is wrapped in `ESP_ERROR_CHECK`, so its failure halts.
- Creating the event group (`xEventGroupCreate`, main/main.c:66) and the default station interface (`esp_netif_create_default_wifi_sta`, main/main.c:70). Neither result is checked. The model assumes the event group exists; a NULL group would go unnoticed until its first use: the wait at line 101 or the handler's `xEventGroupSetBits` at lines 51/60, whichever runs first.
- The NVS flash initialisation with its erase-and-retry in `app_main` (main/main.c:123-130). This is storage plumbing outside the join logic.
- Logging and the IP address formatting (`ESP_LOGI`, `ESP_LOGE`, `IPSTR`/`IP2STR`). These have no effect on state.
- `esp_wifi_connect()` itself. It is a driver call, so the model records only that it was requested (the `connect` flag and the `connects` count).
- Real blocking and the concurrency between the event-dispatch task and the waiting task. Events form a sequence delivered one at a time. The waiter is modelled as observing the state after each event. A waiter that looks later is covered by `ReleaseIsStable`.
- The TCP stream client (connect, send, receive, reconnect loop). main/main.c does not contain it.
