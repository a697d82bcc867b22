/** One request through the pool, as a state transition.

    A request picks a host by Thompson sampling, bumps that host's request
    counter, sends the request (outside this model: its status code and
    elapsed time arrive as an `Outcome`), turns the outcome into a reward and
    applies exactly one belief update to the chosen host.
 */
module Router {
  import opened HostPool
  import opened Selection
  import opened Reward

  /** What the transport reports for one request: the HTTP status code and
      the elapsed time in nanoseconds. */
  datatype Outcome = Outcome(status: int, elapsed: int)

  /** The inputs of one request: the Beta draw for each address, in address
      order, and the transport's outcome. */
  datatype Request = Request(samples: seq<real>, outcome: Outcome)

  /** The pool together with the per-host request counter. */
  datatype State = State(pool: Pool, counter: map<string, int>)

  /** What one request step produced: the host it went to, the reward it
      earned and the state after it. */
  datatype Step = Step(host: string, reward: real, next: State)

  /** A counter read: the zero value of `int` is 0. */
  function Count(counter: map<string, int>, h: string): int
  {
    Get(counter, h, 0)
  }

  /** A fresh pool over `addrs` and an empty counter. */
  function Start(addrs: seq<string>): State
  {
    State(NewHostPool(addrs), map[])
  }

  /** One request. The host is the one selection picks from the samples; it
      alone has its counter raised by one and its beliefs moved by the
      outcome's reward, every other host's counter and beliefs stay as they
      were, and the address list never changes. */
  function Do(st: State, samples: seq<real>, outcome: Outcome): (s: Step)
    requires |samples| == |st.pool.addrs|
    ensures s.host == SelectHost(st.pool, samples)
    ensures s.reward == OutcomeReward(outcome.status, outcome.elapsed)
    ensures s.next.pool.addrs == st.pool.addrs
    ensures Count(s.next.counter, s.host) == Count(st.counter, s.host) + 1
    ensures forall h :: h != s.host ==> Count(s.next.counter, h) == Count(st.counter, h)
    ensures Lookup(s.next.pool.alpha, s.host) == Lookup(st.pool.alpha, s.host) + s.reward
    ensures Lookup(s.next.pool.beta, s.host) == Lookup(st.pool.beta, s.host) + (1.0 - s.reward)
    ensures forall h :: h != s.host ==>
              Lookup(s.next.pool.alpha, h) == Lookup(st.pool.alpha, h)
              && Lookup(s.next.pool.beta, h) == Lookup(st.pool.beta, h)
  {
    var host := SelectHost(st.pool, samples);
    var counter := st.counter[host := Count(st.counter, host) + 1];
    var reward := OutcomeReward(outcome.status, outcome.elapsed);
    var pool := Update(st.pool, host, reward);
    assert Lookup(pool.beta, host) == Lookup(st.pool.beta, host) + (1.0 - reward);
    Step(host, reward, State(pool, counter))
  }

  /** The step's new pool is exactly one `Update`, applied to the host the
      step reports, with the reward it reports. */
  lemma DoIsOneUpdate(st: State, samples: seq<real>, outcome: Outcome)
    requires |samples| == |st.pool.addrs|
    ensures var s := Do(st, samples, outcome);
            s.next.pool == Update(st.pool, s.host, s.reward)
  {
    var s := Do(st, samples, outcome);
    var u := Update(st.pool, s.host, s.reward);
    assert s.next.pool.alpha == u.alpha;
    assert s.next.pool.beta == u.beta;
  }

  /** The belief weights every address starts with, 1.0 each. */
  function PriorMass(addrs: seq<string>, h: string): real
  {
    if h in addrs then 2.0 else 0.0
  }

  /** Every host's two weights add up to its prior plus one per request it
      has served: each request adds one unit of evidence, split between
      success and failure. */
  ghost predicate Consistent(st: State)
  {
    forall h :: Lookup(st.pool.alpha, h) + Lookup(st.pool.beta, h)
                == PriorMass(st.pool.addrs, h) + Count(st.counter, h) as real
  }

  /** A fresh state is valid and consistent. */
  lemma StartInvariant(addrs: seq<string>)
    ensures Valid(Start(addrs).pool)
    ensures Consistent(Start(addrs))
  {
  }

  /** A request step keeps the pool valid and consistent, and no weight ever
      decreases. */
  lemma DoInvariant(st: State, samples: seq<real>, outcome: Outcome)
    requires |samples| == |st.pool.addrs|
    requires Valid(st.pool) && Consistent(st)
    ensures Valid(Do(st, samples, outcome).next.pool)
    ensures Consistent(Do(st, samples, outcome).next)
    ensures forall h :: Lookup(st.pool.alpha, h) <= Lookup(Do(st, samples, outcome).next.pool.alpha, h)
    ensures forall h :: Lookup(st.pool.beta, h) <= Lookup(Do(st, samples, outcome).next.pool.beta, h)
  {
    var s := Do(st, samples, outcome);
    DoIsOneUpdate(st, samples, outcome);
    UpdateMonotone(st.pool, s.host, s.reward);
    forall h
      ensures Lookup(s.next.pool.alpha, h) + Lookup(s.next.pool.beta, h)
              == PriorMass(s.next.pool.addrs, h) + Count(s.next.counter, h) as real
    {
      if h == s.host {
        assert Count(s.next.counter, h) as real == Count(st.counter, h) as real + 1.0;
      }
    }
  }

  // ---------------------------------------------------------------------
  // Runs of requests
  // ---------------------------------------------------------------------

  /** Every request carries one sample per address of the pool. */
  predicate WellFormed(addrs: seq<string>, requests: seq<Request>)
  {
    forall i :: 0 <= i < |requests| ==> |requests[i].samples| == |addrs|
  }

  /** The state after serving `requests` in order. */
  function Run(st: State, requests: seq<Request>): (st': State)
    requires WellFormed(st.pool.addrs, requests)
    ensures st'.pool.addrs == st.pool.addrs
    decreases |requests|
  {
    if |requests| == 0 then st
    else Run(Do(st, requests[0].samples, requests[0].outcome).next, requests[1..])
  }

  /** The belief updates a run makes: `(host, reward)` per request, in
      order. */
  function Updates(st: State, requests: seq<Request>): (events: seq<(string, real)>)
    requires WellFormed(st.pool.addrs, requests)
    ensures |events| == |requests|
    decreases |requests|
  {
    if |requests| == 0 then []
    else
      var s := Do(st, requests[0].samples, requests[0].outcome);
      [(s.host, s.reward)] + Updates(s.next, requests[1..])
  }

  /** A run changes the pool by applying its updates one after another and
      nothing else; every reward in it lies in [0, 1]. */
  lemma {:induction false} RunIsApply(st: State, requests: seq<Request>)
    requires WellFormed(st.pool.addrs, requests)
    ensures Run(st, requests).pool == Apply(st.pool, Updates(st, requests))
    ensures forall i :: 0 <= i < |requests| ==> 0.0 <= Updates(st, requests)[i].1 <= 1.0
    decreases |requests|
  {
    if |requests| > 0 {
      var s := Do(st, requests[0].samples, requests[0].outcome);
      DoIsOneUpdate(st, requests[0].samples, requests[0].outcome);
      RunIsApply(s.next, requests[1..]);
      var events := Updates(st, requests);
      assert events[0] == (s.host, s.reward);
      assert events[1..] == Updates(s.next, requests[1..]);
    }
  }

  /** Every state a run reaches from a valid, consistent state is valid and
      consistent again. */
  lemma {:induction false} RunInvariant(st: State, requests: seq<Request>)
    requires WellFormed(st.pool.addrs, requests)
    requires Valid(st.pool) && Consistent(st)
    ensures Valid(Run(st, requests).pool) && Consistent(Run(st, requests))
    decreases |requests|
  {
    if |requests| > 0 {
      var s := Do(st, requests[0].samples, requests[0].outcome);
      DoInvariant(st, requests[0].samples, requests[0].outcome);
      RunInvariant(s.next, requests[1..]);
    }
  }

  /** From a fresh pool, after any run, an address that received rewards
      r1..rn holds `alpha = 1 + Σ ri` and `beta = 1 + Σ (1 - ri)`, both
      strictly positive, and its weights add up to 2 plus its request count. */
  lemma RunFromStart(addrs: seq<string>, requests: seq<Request>, h: string)
    requires WellFormed(addrs, requests)
    requires h in addrs
    ensures var st := Run(Start(addrs), requests);
            var rs := RewardsFor(Updates(Start(addrs), requests), h);
            && Lookup(st.pool.alpha, h) == 1.0 + Sum(rs)
            && Lookup(st.pool.beta, h) == 1.0 + Sum(Losses(rs))
            && Lookup(st.pool.alpha, h) > 0.0 && Lookup(st.pool.beta, h) > 0.0
            && Lookup(st.pool.alpha, h) + Lookup(st.pool.beta, h) == 2.0 + Count(st.counter, h) as real
  {
    StartInvariant(addrs);
    RunIsApply(Start(addrs), requests);
    RunInvariant(Start(addrs), requests);
    BeliefsFromPrior(addrs, Updates(Start(addrs), requests), h);
  }

  /** On every request of every run from a fresh pool, the Beta shape
      parameters read for each address are strictly positive, as the Beta
      distribution requires. */
  lemma RunShapesPositive(addrs: seq<string>, requests: seq<Request>)
    requires WellFormed(addrs, requests)
    ensures Valid(Run(Start(addrs), requests).pool)
    ensures forall i :: 0 <= i < |addrs| ==>
              Shape(Run(Start(addrs), requests).pool, i).0 > 0.0
              && Shape(Run(Start(addrs), requests).pool, i).1 > 0.0
  {
    StartInvariant(addrs);
    RunInvariant(Start(addrs), requests);
  }

  /** Two hosts, both at (1, 1): a 200 answered at once goes to "A" and a 500
      goes to "B". Afterwards "A" holds (2, 1), "B" holds (1, 2) and each has
      served one request. */
  lemma TwoRequestScenario()
    ensures var s1 := Do(Start(["A", "B"]), [0.9, 0.2], Outcome(StatusOK, 0));
            var s2 := Do(s1.next, [0.1, 0.7], Outcome(500, 0));
            && s1.host == "A" && s2.host == "B"
            && Lookup(s2.next.pool.alpha, "A") == 2.0 && Lookup(s2.next.pool.beta, "A") == 1.0
            && Lookup(s2.next.pool.alpha, "B") == 1.0 && Lookup(s2.next.pool.beta, "B") == 2.0
            && Count(s2.next.counter, "A") == 1 && Count(s2.next.counter, "B") == 1
  {
    var s1 := Do(Start(["A", "B"]), [0.9, 0.2], Outcome(StatusOK, 0));
    FirstRequest();
    SecondRequest(s1.next);
  }

  /** The second request of the scenario: "B" wins the draw and answers 500,
      so it moves from (1, 1) to (1, 2) and "A" keeps what it had. */
  lemma SecondRequest(st: State)
    requires st.pool.addrs == ["A", "B"]
    ensures var s2 := Do(st, [0.1, 0.7], Outcome(500, 0));
            && s2.host == "B"
            && Lookup(s2.next.pool.alpha, "A") == Lookup(st.pool.alpha, "A")
            && Lookup(s2.next.pool.beta, "A") == Lookup(st.pool.beta, "A")
            && Lookup(s2.next.pool.alpha, "B") == Lookup(st.pool.alpha, "B")
            && Lookup(s2.next.pool.beta, "B") == Lookup(st.pool.beta, "B") + 1.0
            && Count(s2.next.counter, "A") == Count(st.counter, "A")
            && Count(s2.next.counter, "B") == Count(st.counter, "B") + 1
  {
    assert IsFirstMax([0.1, 0.7], 1);
    var s2 := Do(st, [0.1, 0.7], Outcome(500, 0));
    assert s2.host == "B" && s2.reward == 0.0;
  }

  /** The first request of the scenario: "A" wins the draw and answers at
      once, so it moves to (2, 1) while "B" stays at (1, 1). */
  lemma FirstRequest()
    ensures var s1 := Do(Start(["A", "B"]), [0.9, 0.2], Outcome(StatusOK, 0));
            && s1.host == "A" && s1.next.pool.addrs == ["A", "B"]
            && Lookup(s1.next.pool.alpha, "A") == 2.0 && Lookup(s1.next.pool.beta, "A") == 1.0
            && Lookup(s1.next.pool.alpha, "B") == 1.0 && Lookup(s1.next.pool.beta, "B") == 1.0
            && Count(s1.next.counter, "A") == 1 && Count(s1.next.counter, "B") == 0
  {
    var st := Start(["A", "B"]);
    assert "A" in st.pool.addrs && "B" in st.pool.addrs;
    assert IsFirstMax([0.9, 0.2], 0);
    var s1 := Do(st, [0.9, 0.2], Outcome(StatusOK, 0));
    assert s1.host == "A" && s1.reward == 1.0;
  }
}
