# go-hostpool: the adaptive host-selection engine, in Dafny

This project models the core of `go-hostpool`, a small Go load balancer
that routes each request to one of a fixed list of backend hosts and learns
from the answers which hosts are good. Every host carries a Beta belief,
two weights `alpha` (success) and `beta` (failure) that both start at 1.0.
A request is routed by Thompson sampling: one draw per host from its Beta
belief, and the host with the largest draw wins (an earlier host wins a
tie). The answer becomes a reward in [0, 1]: 0 for any status other than
200, and otherwise one minus the elapsed whole milliseconds over 1000,
clamped. The reward then
goes into the chosen host's `alpha` and its complement into its `beta`. A
global counter records how many requests each host served.

The model is functional. A pool is an immutable record of the address list
and the two weight maps. Every operation is a pure function. One request is
a transition from one `State` to the next. The two inputs that come from
outside the program are parameters:

- the Beta draws are a sequence of reals, one per address in address order;
- the transport's answer is an `Outcome`: the HTTP status code and the
  elapsed time in nanoseconds (a Go `time.Duration`).

Go map reads at a missing key return the zero value. `HostPool.Get`
models this once, for any value type, and `HostPool.Lookup` and
`Router.Count` are its weight and counter instances, so `update` on a host the table does not know
inserts it, with 0 as its starting weights, just as the Go code does.

Modules, one per component of `main.go`:

- `HostPool` (`host_pool.dfy`): the belief table, `newHostPool` and
  `update`, plus the accumulation laws over any sequence of updates.
- `Selection` (`selection.dfy`): the first-argmax scan of `selectHost`.
- `Reward` (`reward.dfy`): the reward rule inside `Do`, including the
  truncation of `Duration.Milliseconds`.
- `Router` (`router.dfy`): one `Do` step (select, count, reward, update)
  and runs of steps.

Behaviour of the Go code that the model keeps:

- An empty address list is accepted by `newHostPool`.
- An empty pool selects `""`.
- `update` adds the reward as given, unclamped.
- A failed call that returns no response panics at main.go:32, where `Do`
  reads the status of a nil response, so no update follows it.
- When the redirect check fails, `client.Do` returns the last 3xx response
  together with the error. That response earns reward 0 and still gets one
  update; the model covers it as a non-200 `Outcome`.
- The request counter is a process-wide map beside the pool. The model keeps
  it in `State` next to the pool, starting empty, as in a process that
  builds one pool.

## Model

| member | source | states |
|---|---|---|
| `HostPool.Uniform` | main.go:49-52 | The construction loop's map holds exactly the given addresses as keys, each mapped to 1.0. |
| `HostPool.NewHostPool` | main.go:42-55 | A new pool keeps the address list as given. Both weight maps have exactly those addresses as keys. Every address reads 1.0 in both maps, and every other key reads the zero value. |
| `HostPool.Shape` | main.go:66-67 | In a valid pool, both Beta shape parameters read for an address are strictly positive. |
| `HostPool.Update` | main.go:57-60 | `update` leaves the address list alone. It adds `host` as a key if it was missing. It changes no other host's weights. It raises `alpha[host]` by exactly the reward, and it raises `alpha[host] + beta[host]` by exactly 1 for any reward. |
| `HostPool.UpdateMonotone` | main.go:57-60 | For a reward in [0, 1], no weight of any host decreases, and a pool whose addresses all have positive weights keeps them positive. |
| `HostPool.ApplyAccumulates` | main.go:57-60 | After any sequence of updates, a host's `alpha` has grown by the sum of the rewards addressed to it and its `beta` by the sum of their complements, whatever other hosts received in between. |
| `HostPool.BeliefsFromPrior` | main.go:49-60 | From a new pool, after rewards r1..rn to an address, `alpha = 1 + Σ ri` and `beta = 1 + Σ (1 - ri)`, and the two add up to 2 + n. |
| `HostPool.ConstantRewards` | main.go:57-60 | m sequential updates of reward r to one host raise its `alpha` by m copies of r and its `beta` by m copies of 1 - r. |
| `HostPool.TimesIsProduct` | main.go:57-60 | The arithmetic step behind `HostPool.RepeatedReward`: m copies of r, added one at a time, come to exactly m·r. |
| `HostPool.RepeatedReward` | main.go:57-60 | m sequential updates of reward r to one host raise its `alpha` by exactly m·r and its `beta` by exactly m·(1 - r). |
| `HostPool.TwoHostScenario` | main.go:42-60 | From the prior on ["A", "B"], a reward of 1 to A and of 0 to B leave A at (2, 1) and B at (1, 2). |
| `Selection.SelectIndex` | main.go:63-74 | The scan ends on -1 exactly when no sample beats the floor of -1.0. Otherwise it ends on the first index that holds the greatest sample: every earlier sample is strictly smaller and no sample is larger. |
| `Selection.FirstMaxUnique` | main.go:69-72 | There is only one first maximum, so the characterisation of the scan's result determines it completely. |
| `Selection.SelectHost` | main.go:62-75 | The chosen host is the address at the first index of the greatest sample. If no sample beats -1.0, and so always for an empty pool, it is "". If some sample beats the floor, the chosen host is one of the pool's addresses. |
| `Selection.SelectHostInPool` | main.go:62-75 | With a non-empty pool and draws in [0, 1], as Beta draws are, the chosen host is in the pool, and a single-address pool always chooses its address. |
| `Selection.TieGoesToEarlier` | main.go:69 | Because the comparison is strict, when two indices tie on the greatest sample the scan never ends after the earlier one. |
| `Reward.Milliseconds` | main.go:33 | `Duration.Milliseconds` truncates toward zero: for a non-negative duration the result is the whole number of milliseconds not exceeding it, and for a negative one it is the mirror image. |
| `Reward.MillisecondsMonotone` | main.go:33 | A longer duration never gives fewer milliseconds. |
| `Reward.Clamp` | main.go:34 | `max(0, min(1, x))` lies in [0, 1], keeps x when x already lies there, and is 0 below and 1 above. |
| `Reward.Reward` | main.go:31-37 | The reward lies in [0, 1]. A non-200 status gives exactly 0. A 200 status gives 1 at 0 ms or less, 0 at 1000 ms or more, and `1 - ms/1000` in between. |
| `Reward.RewardMonotone` | main.go:33-34 | For a fixed status, the reward never increases as the elapsed milliseconds grow. |
| `Reward.TruncationGap` | main.go:33 | For a non-negative duration, whole milliseconds read as seconds fall short of the exact seconds by less than a thousandth. |
| `Reward.OutcomeReward` | main.go:31-37 | Applied to a raw duration: the reward lies in [0, 1] and is 0 for non-200. A 200 answer in under a millisecond scores 1 and one of 1 s or more scores 0. Against the exact elapsed seconds, truncation only ever raises the reward, and by less than 0.001. |
| `Reward.OutcomeRewardMonotone` | main.go:33-34 | The reward of a request never increases as its duration grows. |
| `Router.Do` | main.go:21-39 | One request goes to the host that selection picks. It raises that host's counter by exactly 1 and moves its weights by the outcome's reward and its complement. Every other host's counter and weights are left unchanged, and so is the address list. |
| `Router.DoIsOneUpdate` | main.go:23-38 | The pool after a request is exactly one `update`, applied to the selected host with the computed reward. |
| `Router.StartInvariant` | main.go:19-55 | The starting state is a new pool beside the process-wide request counter, which starts empty. It has positive weights for every address, and every host's weights add up to its prior plus its request count. |
| `Router.DoInvariant` | main.go:21-39 | A request keeps the weights positive and keeps "weights add up to the prior plus the request count". No weight of any host decreases. |
| `Router.RunIsApply` | main.go:21-39 | A run of requests changes the pool only by applying, in order, the one update each request makes, and every such reward lies in [0, 1]. |
| `Router.RunInvariant` | main.go:21-39 | Every state reached by a run from a valid, consistent state is valid and consistent. |
| `Router.RunFromStart` | main.go:21-60 | From a new pool, after any run, an address holds `alpha = 1 + Σ ri` and `beta = 1 + Σ (1 - ri)` over the rewards it received. Both are strictly positive and add up to 2 plus the number of requests it served. |
| `Router.FirstRequest` | main.go:21-39 | Scenario, first step: A wins the draw with a 200 in 0 ns and moves from (1, 1) to (2, 1), and its counter becomes 1. |
| `Router.SecondRequest` | main.go:21-39 | Scenario, second step: B wins the draw with a 500 and gains 1 in `beta` only, and A is untouched. |
| `Router.RunShapesPositive` | main.go:66-68 | On every request of every run from a new pool, the Beta shape parameters read for each address are strictly positive. |
| `Router.TwoRequestScenario` | main.go:21-60 | After those two requests, A holds (2, 1), B holds (1, 2), and each has served one request. |

## Left out

- HTTP transport: `http.Client`, the request itself and the rewriting of
  its URL host and scheme (main.go:25-29) are not modelled. The transport's
  answer is an input.
- Transport errors: main.go:29-32 reads `resp.StatusCode` before looking at
  `err`, so a failed call with no response panics. The model takes the
  outcome as a well-formed status code and has no error branch; a failed
  call that still returns a response (the 3xx of a failed redirect check)
  is an ordinary non-200 outcome. This includes the empty
  pool, where the request goes to host "" and in Go would fail and panic.
- Clock: `time.Now` and `time.Since` are not modelled. The elapsed duration
  in nanoseconds is an input, and only its truncation to milliseconds is
  modelled.
- Beta sampling: `distuv.Beta{...}.Rand()` (main.go:67-68) is a foreign
  random-number library. Its draws are an input sequence.
- Selection.SelectHost: the samples are arbitrary reals, not tied to the
  Beta distribution of each host's current weights. Range facts hold only
  for samples above -1.0, or in [0, 1] in `Selection.SelectHostInPool`.
- Floating point: `float64` and `math.Max`/`math.Min` are modelled as exact
  real arithmetic, so rounding and NaN are not modelled.
- Integer width: the `int` request counter and the `int64` duration are
  unbounded integers. Wrap-around after 2^63 requests or nanoseconds is
  not modelled.
- Concurrency: the maps have no lock in Go, so concurrent updates can be
  lost or crash the runtime. The model is a sequential state transition,
  and its accumulation laws hold for sequential updates only.
- `startServer` and `main` (main.go:77-112) are test scaffolding and
  diagnostics, not part of the engine.
