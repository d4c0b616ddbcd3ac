/** The router's traffic counters: goroutines add bytes, `snapshot` takes what has gathered with one `Swap`.
    Every atomic operation is a step of its own, and any goroutine may take the next one. */
module Traffic {
  import opened Numbers

  /** A goroutine inside `uploaded`: it has added `n` to the total and not yet to the gathered bytes. */
  datatype Adder = Idle | Owing(n: nat)

  /** The holder of `sampleMu`: it has swapped `v` out and not yet stored it. */
  datatype Sampler = Ready | Holding(v: nat)

  /** One direction of the counters, where every goroutine stands, and all values the swaps returned. */
  datatype Meter = Meter(total: nat, temp: nat, rate: nat, adders: seq<Adder>, sampler: Sampler, samples: seq<nat>)

  datatype Step = AddTotal(goroutine: nat, n: nat) | AddTemp(adder: nat) | Swap | StoreRate

  predicate Enabled(m: Meter, step: Step) {
    match step
    case AddTotal(g, n) => g < |m.adders| && m.adders[g].Idle?
    case AddTemp(g) => g < |m.adders| && m.adders[g].Owing?
    case Swap => m.sampler.Ready?
    case StoreRate => m.sampler.Holding?
  }

  function Apply(m: Meter, step: Step): Meter
    requires Enabled(m, step)
  {
    match step
    case AddTotal(g, n) => m.(total := m.total + n, adders := m.adders[g := Owing(n)])
    case AddTemp(g) => m.(temp := m.temp + m.adders[g].n, adders := m.adders[g := Idle])
    case Swap => m.(temp := 0, sampler := Holding(m.temp), samples := m.samples + [m.temp])
    case StoreRate => m.(rate := m.sampler.v, sampler := Ready)
  }

  /** A schedule: any interleaving the goroutines can produce. */
  predicate Possible(m: Meter, steps: seq<Step>)
    decreases |steps|
  {
    steps == [] || (Enabled(m, steps[0]) && Possible(Apply(m, steps[0]), steps[1..]))
  }

  function After(m: Meter, steps: seq<Step>): Meter
    requires Possible(m, steps)
    decreases |steps|
  {
    if steps == [] then m else After(Apply(m, steps[0]), steps[1..])
  }

  /** Bytes that are in the total and still on their way to the gathered ones. */
  function InFlight(adders: seq<Adder>): nat {
    if adders == [] then 0
    else (if adders[0].Owing? then adders[0].n else 0) + InFlight(adders[1..])
  }

  lemma {:induction false} InFlightUpdate(adders: seq<Adder>, g: nat, a: Adder)
    requires g < |adders|
    ensures InFlight(adders[g := a]) + (if adders[g].Owing? then adders[g].n else 0)
            == InFlight(adders) + (if a.Owing? then a.n else 0)
  {
    if g > 0 {
      InFlightUpdate(adders[1..], g - 1, a);
      assert adders[g := a][1..] == adders[1..][g - 1 := a];
    } else {
      assert adders[0 := a][1..] == adders[1..];
    }
  }

  /** Every byte counted is in exactly one place, and the published rate is the last sample stored. */
  predicate Conserved(m: Meter) {
    && m.total == Sum(m.samples) + m.temp + InFlight(m.adders)
    && (m.sampler.Holding? ==> m.samples != [] && m.sampler.v == m.samples[|m.samples| - 1])
    && (m.sampler.Ready? ==> m.rate == if m.samples == [] then 0 else m.samples[|m.samples| - 1])
  }

  lemma StepConserves(m: Meter, step: Step)
    requires Conserved(m) && Enabled(m, step)
    ensures Conserved(Apply(m, step))
  {
    match step
    case AddTotal(g, n) => InFlightUpdate(m.adders, g, Owing(n));
    case AddTemp(g) => InFlightUpdate(m.adders, g, Idle);
    case Swap => SumSnoc(m.samples, m.temp);
    case StoreRate =>
  }

  /** What the schedule says was counted. */
  function Counted(steps: seq<Step>): nat {
    if steps == [] then 0 else (if steps[0].AddTotal? then steps[0].n else 0) + Counted(steps[1..])
  }

  function AllIdle(goroutines: nat): seq<Adder> {
    if goroutines == 0 then [] else [Idle] + AllIdle(goroutines - 1)
  }

  function Fresh(goroutines: nat): Meter {
    Meter(0, 0, 0, AllIdle(goroutines), Ready, [])
  }

  lemma {:induction false} FreshIsConserved(goroutines: nat)
    ensures InFlight(AllIdle(goroutines)) == 0 && Conserved(Fresh(goroutines))
  {
    if goroutines > 0 {
      assert AllIdle(goroutines)[1..] == AllIdle(goroutines - 1);
      FreshIsConserved(goroutines - 1);
    }
  }

  lemma {:induction false} RunConserves(m: Meter, steps: seq<Step>)
    requires Conserved(m) && Possible(m, steps)
    ensures Conserved(After(m, steps)) && After(m, steps).total == m.total + Counted(steps)
    decreases |steps|
  {
    if steps != [] {
      StepConserves(m, steps[0]);
      RunConserves(Apply(m, steps[0]), steps[1..]);
    }
  }

  /** In every state of every run the total is what was counted, and it is the sum of all samples ever taken,
      of what has gathered since, and of what is still on its way: no byte is lost or sampled twice. */
  lemma NothingIsLost(goroutines: nat, steps: seq<Step>)
    requires Possible(Fresh(goroutines), steps)
    ensures var m := After(Fresh(goroutines), steps);
            m.total == Counted(steps) == Sum(m.samples) + m.temp + InFlight(m.adders)
  {
    FreshIsConserved(goroutines);
    RunConserves(Fresh(goroutines), steps);
  }

  /** A final swap in a quiet state accounts for everything. */
  lemma QuietSwapAccountsForAll(goroutines: nat, steps: seq<Step>)
    requires Possible(Fresh(goroutines), steps)
    requires var m := After(Fresh(goroutines), steps); m.sampler.Ready? && InFlight(m.adders) == 0
    ensures Sum(Apply(After(Fresh(goroutines), steps), Swap).samples) == Counted(steps)
  {
    FreshIsConserved(goroutines);
    RunConserves(Fresh(goroutines), steps);
    StepConserves(After(Fresh(goroutines), steps), Swap);
    SumSnoc(After(Fresh(goroutines), steps).samples, After(Fresh(goroutines), steps).temp);
  }

  datatype TrafficStats = TrafficStats(
    uploadTotal: nat, downloadTotal: nat, uploadPerSecond: nat, downloadPerSecond: nat)

  /** The counters as one goroutine uses them when it is alone: each method is its atomic steps in order. */
  class TrafficCounter {
    var uploadTotal: nat
    var downloadTotal: nat
    var uploadTemp: nat
    var downloadTemp: nat
    var uploadRate: nat
    var downloadRate: nat
    ghost var uploadSamples: seq<nat>
    ghost var downloadSamples: seq<nat>

    ghost function Up(): Meter
      reads this
    {
      Meter(uploadTotal, uploadTemp, uploadRate, [Idle], Ready, uploadSamples)
    }

    ghost function Down(): Meter
      reads this
    {
      Meter(downloadTotal, downloadTemp, downloadRate, [Idle], Ready, downloadSamples)
    }

    constructor ()
      ensures Up() == Down() == Meter(0, 0, 0, [Idle], Ready, [])
      ensures Conserved(Up()) && Conserved(Down())
    {
      uploadTotal, uploadTemp, uploadRate, uploadSamples := 0, 0, 0, [];
      downloadTotal, downloadTemp, downloadRate, downloadSamples := 0, 0, 0, [];
      new;
      assert Up() == Down();
      StartsConserved(Up());
    }

    /** `uploaded`: counts that are not positive are ignored. */
    method Uploaded(n: int)
      requires Conserved(Up()) && Conserved(Down())
      modifies this
      ensures n <= 0 ==> Up() == old(Up())
      ensures n > 0 ==>
                && Possible(old(Up()), [AddTotal(0, n), AddTemp(0)])
                && Up() == After(old(Up()), [AddTotal(0, n), AddTemp(0)])
      ensures Conserved(Up()) && Down() == old(Down())
    {
      if n <= 0 {
        return;
      }
      AloneAdds(Up(), n);
      uploadTotal := uploadTotal + n;
      uploadTemp := uploadTemp + n;
    }

    method Downloaded(n: int)
      requires Conserved(Up()) && Conserved(Down())
      modifies this
      ensures n <= 0 ==> Down() == old(Down())
      ensures n > 0 ==>
                && Possible(old(Down()), [AddTotal(0, n), AddTemp(0)])
                && Down() == After(old(Down()), [AddTotal(0, n), AddTemp(0)])
      ensures Conserved(Down()) && Up() == old(Up())
    {
      if n <= 0 {
        return;
      }
      AloneAdds(Down(), n);
      downloadTotal := downloadTotal + n;
      downloadTemp := downloadTemp + n;
    }

    /** `snapshot`: a sample is taken only when one is due. */
    method Snapshot(due: bool) returns (stats: TrafficStats)
      requires Conserved(Up()) && Conserved(Down())
      modifies this
      ensures !due ==> Up() == old(Up()) && Down() == old(Down())
      ensures due ==>
                && Possible(old(Up()), [Swap, StoreRate]) && Up() == After(old(Up()), [Swap, StoreRate])
                && Possible(old(Down()), [Swap, StoreRate]) && Down() == After(old(Down()), [Swap, StoreRate])
      ensures Conserved(Up()) && Conserved(Down())
      ensures stats == TrafficStats(old(uploadTotal), old(downloadTotal), uploadRate, downloadRate)
    {
      if due {
        AloneSamples(Up());
        AloneSamples(Down());
        uploadRate, uploadTemp, uploadSamples := uploadTemp, 0, uploadSamples + [uploadTemp];
        downloadRate, downloadTemp, downloadSamples := downloadTemp, 0, downloadSamples + [downloadTemp];
      }
      stats := TrafficStats(uploadTotal, downloadTotal, uploadRate, downloadRate);
    }
  }

  lemma StartsConserved(m: Meter)
    requires m == Meter(0, 0, 0, [Idle], Ready, [])
    ensures Conserved(m)
  {
    assert m.adders[1..] == [];
  }

  lemma OneStep(m: Meter, step: Step)
    requires Enabled(m, step)
    ensures Possible(m, [step]) && After(m, [step]) == Apply(m, step)
  {
    assert [step][1..] == [];
    assert After(Apply(m, step), [step][1..]) == Apply(m, step);
  }

  lemma TwoSteps(m: Meter, first: Step, second: Step)
    requires Enabled(m, first) && Enabled(Apply(m, first), second)
    ensures Possible(m, [first, second]) && After(m, [first, second]) == Apply(Apply(m, first), second)
  {
    OneStep(Apply(m, first), second);
    assert [first, second][1..] == [second];
  }

  lemma AloneAdds(m: Meter, n: nat)
    requires Conserved(m) && m.adders == [Idle]
    ensures Possible(m, [AddTotal(0, n), AddTemp(0)])
    ensures After(m, [AddTotal(0, n), AddTemp(0)]) == m.(total := m.total + n, temp := m.temp + n)
    ensures Conserved(m.(total := m.total + n, temp := m.temp + n))
  {
    TwoSteps(m, AddTotal(0, n), AddTemp(0));
    assert Apply(Apply(m, AddTotal(0, n)), AddTemp(0)).adders == [Idle];
    RunConserves(m, [AddTotal(0, n), AddTemp(0)]);
  }

  lemma AloneSamples(m: Meter)
    requires Conserved(m) && m.sampler == Ready
    ensures Possible(m, [Swap, StoreRate])
    ensures After(m, [Swap, StoreRate]) == m.(temp := 0, rate := m.temp, samples := m.samples + [m.temp])
    ensures Conserved(m.(temp := 0, rate := m.temp, samples := m.samples + [m.temp]))
  {
    TwoSteps(m, Swap, StoreRate);
    RunConserves(m, [Swap, StoreRate]);
  }
}
