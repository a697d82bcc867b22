/** The Beta belief table of a host pool.

    Every address carries two weights: `alpha`, the accumulated success
    reward, and `beta`, the accumulated failure reward. Together they are the
    shape parameters of a Beta posterior over "this host gives a good
    outcome". The table is built once with a uniform prior and changed only by
    `Update`.
 */
module HostPool {

  /** A pool: the addresses in the order given at construction and the two
      weight maps, keyed by address. */
  datatype Pool = Pool(addrs: seq<string>, alpha: map<string, real>, beta: map<string, real>)

  /** Reading a Go map at a key it does not hold yields the zero value of
      the map's value type, given here as `zero`. */
  function Get<V>(m: map<string, V>, k: string, zero: V): V
  {
    if k in m then m[k] else zero
  }

  /** A weight read: the zero value of `float64` is 0.0. */
  function Lookup(m: map<string, real>, k: string): real
  {
    Get(m, k, 0.0)
  }

  /** The uniform prior over `addrs`, written one address at a time in the
      order of the construction loop: every address maps to 1.0 and nothing
      else is a key. */
  function Uniform(addrs: seq<string>): (m: map<string, real>)
    ensures m.Keys == set a | a in addrs
    ensures forall a :: a in m ==> m[a] == 1.0
  {
    if |addrs| == 0 then map[]
    else
      var init := addrs[..|addrs| - 1];
      var last := addrs[|addrs| - 1];
      assert addrs == init + [last];
      Uniform(init)[last := 1.0]
  }

  /** A fresh pool: the addresses are kept as given (duplicates and the empty
      list included) and both weights of every address start at 1.0. */
  function NewHostPool(addrs: seq<string>): (hp: Pool)
    ensures hp.addrs == addrs
    ensures hp.alpha.Keys == (set a | a in addrs) && hp.beta.Keys == (set a | a in addrs)
    ensures forall a :: a in addrs ==> Lookup(hp.alpha, a) == 1.0 && Lookup(hp.beta, a) == 1.0
    ensures forall a :: a !in addrs ==> Lookup(hp.alpha, a) == 0.0 && Lookup(hp.beta, a) == 0.0
  {
    Pool(addrs, Uniform(addrs), Uniform(addrs))
  }

  /** Every address of the pool has both weights present and strictly
      positive, as the Beta distribution needs of its shape parameters. */
  predicate Valid(hp: Pool)
  {
    forall a :: a in hp.addrs ==>
      && a in hp.alpha && a in hp.beta
      && hp.alpha[a] > 0.0 && hp.beta[a] > 0.0
  }

  /** The shape parameters the selection step hands to the Beta distribution
      for the address at index `i`. */
  function Shape(hp: Pool, i: nat): (ab: (real, real))
    requires i < |hp.addrs|
    requires Valid(hp)
    ensures ab.0 > 0.0 && ab.1 > 0.0
  {
    (Lookup(hp.alpha, hp.addrs[i]), Lookup(hp.beta, hp.addrs[i]))
  }

  /** One belief update: the reward goes to `alpha[host]` and its complement
      to `beta[host]`. The reward is not clamped here; an unknown host is
      inserted with the zero value as its starting weight. */
  function Update(hp: Pool, host: string, reward: real): (hp': Pool)
    ensures hp'.addrs == hp.addrs
    ensures hp'.alpha.Keys == hp.alpha.Keys + {host} && hp'.beta.Keys == hp.beta.Keys + {host}
    ensures forall h :: h != host ==> Lookup(hp'.alpha, h) == Lookup(hp.alpha, h)
    ensures forall h :: h != host ==> Lookup(hp'.beta, h) == Lookup(hp.beta, h)
    ensures Lookup(hp'.alpha, host) + Lookup(hp'.beta, host)
         == Lookup(hp.alpha, host) + Lookup(hp.beta, host) + 1.0
    ensures Lookup(hp'.alpha, host) - Lookup(hp.alpha, host) == reward
  {
    hp.(alpha := hp.alpha[host := Lookup(hp.alpha, host) + reward],
        beta := hp.beta[host := Lookup(hp.beta, host) + (1.0 - reward)])
  }

  /** A reward in [0,1] never lowers a weight, and it keeps a valid pool
      valid. */
  lemma UpdateMonotone(hp: Pool, host: string, reward: real)
    requires 0.0 <= reward <= 1.0
    ensures forall h :: Lookup(hp.alpha, h) <= Lookup(Update(hp, host, reward).alpha, h)
    ensures forall h :: Lookup(hp.beta, h) <= Lookup(Update(hp, host, reward).beta, h)
    ensures Valid(hp) ==> Valid(Update(hp, host, reward))
  {
    var hp' := Update(hp, host, reward);
    forall h
      ensures Lookup(hp.alpha, h) <= Lookup(hp'.alpha, h)
      ensures Lookup(hp.beta, h) <= Lookup(hp'.beta, h)
    {
      if h == host {
        assert Lookup(hp'.beta, h) == Lookup(hp.beta, h) + (1.0 - reward);
      }
    }
  }

  // ---------------------------------------------------------------------
  // Accumulation over a sequence of updates
  // ---------------------------------------------------------------------

  /** Applies the updates `(host, reward)` of `events` in order. */
  function Apply(hp: Pool, events: seq<(string, real)>): Pool
    decreases |events|
  {
    if |events| == 0 then hp
    else Apply(Update(hp, events[0].0, events[0].1), events[1..])
  }

  /** The rewards in `events` addressed to `h`, in order. */
  function RewardsFor(events: seq<(string, real)>, h: string): seq<real>
  {
    if |events| == 0 then []
    else if events[0].0 == h then [events[0].1] + RewardsFor(events[1..], h)
    else RewardsFor(events[1..], h)
  }

  /** The sum of a sequence of rewards. */
  function Sum(rs: seq<real>): real
  {
    if |rs| == 0 then 0.0 else rs[0] + Sum(rs[1..])
  }

  /** The complement `1 - r` of every reward. */
  function Losses(rs: seq<real>): seq<real>
  {
    if |rs| == 0 then [] else [1.0 - rs[0]] + Losses(rs[1..])
  }

  /** The losses of `n` rewards sum to `n` minus the rewards' sum. */
  lemma {:induction false} SumLosses(rs: seq<real>)
    ensures Sum(Losses(rs)) == |rs| as real - Sum(rs)
  {
    if |rs| > 0 {
      SumLosses(rs[1..]);
      assert Losses(rs)[1..] == Losses(rs[1..]);
    }
  }

  /** After any sequence of updates, each host's `alpha` has grown by the sum
      of the rewards addressed to it and its `beta` by the sum of their
      complements; nothing else changes. */
  lemma {:induction false} ApplyAccumulates(hp: Pool, events: seq<(string, real)>, h: string)
    ensures Apply(hp, events).addrs == hp.addrs
    ensures Lookup(Apply(hp, events).alpha, h) == Lookup(hp.alpha, h) + Sum(RewardsFor(events, h))
    ensures Lookup(Apply(hp, events).beta, h) == Lookup(hp.beta, h) + Sum(Losses(RewardsFor(events, h)))
    decreases |events|
  {
    if |events| > 0 {
      var (host, r) := events[0];
      var hp1 := Update(hp, host, r);
      ApplyAccumulates(hp1, events[1..], h);
      if host == h {
        var rest := RewardsFor(events[1..], h);
        assert RewardsFor(events, h) == [r] + rest;
        assert ([r] + rest)[1..] == rest;
        assert Lookup(hp1.beta, h) == Lookup(hp.beta, h) + (1.0 - r);
      }
    }
  }

  /** From the uniform prior, the weights of an address after rewards
      r1..rn addressed to it are `1 + Σ ri` and `1 + Σ (1 - ri)`, whatever
      the other addresses received in between. */
  lemma {:induction false} BeliefsFromPrior(addrs: seq<string>, events: seq<(string, real)>, h: string)
    requires h in addrs
    ensures Lookup(Apply(NewHostPool(addrs), events).alpha, h) == 1.0 + Sum(RewardsFor(events, h))
    ensures Lookup(Apply(NewHostPool(addrs), events).beta, h) == 1.0 + Sum(Losses(RewardsFor(events, h)))
    ensures Lookup(Apply(NewHostPool(addrs), events).alpha, h) + Lookup(Apply(NewHostPool(addrs), events).beta, h)
         == 2.0 + |RewardsFor(events, h)| as real
  {
    ApplyAccumulates(NewHostPool(addrs), events, h);
    SumLosses(RewardsFor(events, h));
  }

  /** `n` copies of `x` added up one at a time. */
  function Times(n: nat, x: real): real
  {
    if n == 0 then 0.0 else Times(n - 1, x) + x
  }

  /** Adding up `n` copies of `x` gives `n * x`. */
  lemma {:induction false} TimesIsProduct(n: nat, x: real)
    ensures Times(n, x) == n as real * x
  {
    if n > 0 {
      TimesIsProduct(n - 1, x);
      assert n as real * x == (n - 1) as real * x + x;
    }
  }

  /** When every update goes to `h` with reward `r`, the rewards addressed
      to `h` are `r`, once per update. */
  lemma {:induction false} RewardsForConstant(events: seq<(string, real)>, h: string, r: real)
    requires forall i :: 0 <= i < |events| ==> events[i] == (h, r)
    ensures |RewardsFor(events, h)| == |events|
    ensures forall i :: 0 <= i < |events| ==> RewardsFor(events, h)[i] == r
  {
    if |events| > 0 {
      RewardsForConstant(events[1..], h, r);
      assert events[0] == (h, r);
    }
  }

  /** Rewards that all equal `r` add up to `n` copies of `r`, and their
      complements to `n` copies of `1 - r`. */
  lemma {:induction false} SumConstant(rs: seq<real>, r: real)
    requires forall i :: 0 <= i < |rs| ==> rs[i] == r
    ensures Sum(rs) == Times(|rs|, r)
    ensures Sum(Losses(rs)) == Times(|rs|, 1.0 - r)
  {
    if |rs| > 0 {
      SumConstant(rs[1..], r);
      assert Losses(rs)[1..] == Losses(rs[1..]);
    }
  }

  /** `m` sequential updates that all give reward `r` to host `h` raise its
      `alpha` by `m` copies of `r` and its `beta` by `m` copies of `1 - r`. */
  lemma ConstantRewards(hp: Pool, events: seq<(string, real)>, h: string, r: real)
    requires forall i :: 0 <= i < |events| ==> events[i] == (h, r)
    ensures Lookup(Apply(hp, events).alpha, h) == Lookup(hp.alpha, h) + Times(|events|, r)
    ensures Lookup(Apply(hp, events).beta, h) == Lookup(hp.beta, h) + Times(|events|, 1.0 - r)
  {
    ApplyAccumulates(hp, events, h);
    RewardsForConstant(events, h, r);
    SumConstant(RewardsFor(events, h), r);
  }

  /** Every `Times` is the corresponding product. */
  lemma TimesIsProductEverywhere()
    ensures forall n: nat, x: real :: Times(n, x) == n as real * x
  {
    forall n: nat, x: real
      ensures Times(n, x) == n as real * x
    {
      TimesIsProduct(n, x);
    }
  }

  /** `m` sequential updates of reward `r` to host `h` raise its `alpha` by
      exactly `m * r` and its `beta` by exactly `m * (1 - r)`. */
  lemma {:induction false} RepeatedReward(hp: Pool, events: seq<(string, real)>, h: string, r: real)
    requires forall i :: 0 <= i < |events| ==> events[i] == (h, r)
    ensures Lookup(Apply(hp, events).alpha, h) == Lookup(hp.alpha, h) + |events| as real * r
    ensures Lookup(Apply(hp, events).beta, h) == Lookup(hp.beta, h) + |events| as real * (1.0 - r)
  {
    ConstantRewards(hp, events, h, r);
    TimesIsProductEverywhere();
  }

  /** The two-host scenario: starting from the prior, a reward of 1 to "A" and
      a reward of 0 to "B" leave "A" at (2, 1) and "B" at (1, 2). */
  lemma TwoHostScenario()
    ensures var hp := Update(Update(NewHostPool(["A", "B"]), "A", 1.0), "B", 0.0);
            && Lookup(hp.alpha, "A") == 2.0 && Lookup(hp.beta, "A") == 1.0
            && Lookup(hp.alpha, "B") == 1.0 && Lookup(hp.beta, "B") == 2.0
  {
    var hp0 := NewHostPool(["A", "B"]);
    assert "A" in ["A", "B"] && "B" in ["A", "B"];
    var hp1 := Update(hp0, "A", 1.0);
    assert Lookup(hp1.beta, "A") == 1.0;
    var hp2 := Update(hp1, "B", 0.0);
    assert Lookup(hp2.alpha, "B") == 1.0;
  }
}
