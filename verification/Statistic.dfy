/** The statistics manager: connections push what they move, a ticker samples once a second with a separate
    `Load` and `Store(0)`. Every atomic operation is a step of its own, and any goroutine may take the next. */
module Statistic {
  import opened Numbers

  /** A goroutine inside a tracker's read or write of `n` bytes. */
  datatype Worker =
    | Idle
    | Pushed(tracker: nat, n: int)   // has added to the manager's gathered bytes
    | Totalled(tracker: nat, n: int) // has added to the manager's total as well

  /** The ticker goroutine. */
  datatype Ticker = Waiting | Loaded(v: int) | Published(v: int)

  /** One direction of the manager, the totals of all trackers there ever were, by identity, and the samples
      whose bytes have been taken out of `temp`; and what resets have taken away: of the total, of the gathered
      bytes, and of those since the ticker's last `Load`, which its `Store(0)` would have taken anyway. */
  datatype Stats = Stats(
    temp: int, blip: int, total: int,
    trackers: seq<int>, connections: set<nat>,
    workers: seq<Worker>, ticker: Ticker, samples: seq<int>,
    wiped: int, erased: int, pending: int)

  datatype Step =
    | Join | Leave(id: nat)
    | AddTemp(worker: nat, to: nat, n: int) | AddTotal(worker: nat) | Credit(worker: nat)
    | Load | Publish | Zero
    | ResetTemp | ResetBlip | ResetTotal

  predicate Enabled(s: Stats, step: Step) {
    match step
    case Join => true
    case Leave(k) => k < |s.trackers|
    case AddTemp(w, k, n) => w < |s.workers| && s.workers[w].Idle? && k < |s.trackers|
    case AddTotal(w) => w < |s.workers| && s.workers[w].Pushed?
    case Credit(w) => w < |s.workers| && s.workers[w].Totalled? && s.workers[w].tracker < |s.trackers|
    case Load => s.ticker.Waiting?
    case Publish => s.ticker.Loaded?
    case Zero => s.ticker.Published?
    case ResetTemp => true
    case ResetBlip => true
    case ResetTotal => true
  }

  function Apply(s: Stats, step: Step): Stats
    requires Enabled(s, step)
  {
    match step
    case Join => s.(trackers := s.trackers + [0], connections := s.connections + {|s.trackers|})
    case Leave(k) => s.(connections := s.connections - {k})
    case AddTemp(w, k, n) => s.(temp := s.temp + n, workers := s.workers[w := Pushed(k, n)])
    case AddTotal(w) =>
      s.(total := s.total + s.workers[w].n, workers := s.workers[w := Totalled(s.workers[w].tracker, s.workers[w].n)])
    case Credit(w) =>
      var k := s.workers[w].tracker;
      s.(trackers := s.trackers[k := s.trackers[k] + s.workers[w].n], workers := s.workers[w := Idle])
    case Load => s.(ticker := Loaded(s.temp))
    case Publish => s.(blip := s.ticker.v, ticker := Published(s.ticker.v))
    case Zero => s.(temp := 0, ticker := Waiting, samples := s.samples + [s.ticker.v], pending := 0)
    case ResetTemp =>
      if s.ticker.Waiting? then s.(temp := 0, erased := s.erased + s.temp)
      else s.(temp := 0, pending := s.pending + s.temp)
    case ResetBlip => s.(blip := 0)
    case ResetTotal => s.(total := 0, wiped := s.wiped + s.total)
  }

  predicate Possible(s: Stats, steps: seq<Step>)
    decreases |steps|
  {
    steps == [] || (Enabled(s, steps[0]) && Possible(Apply(s, steps[0]), steps[1..]))
  }

  function After(s: Stats, steps: seq<Step>): Stats
    requires Possible(s, steps)
    decreases |steps|
  {
    if steps == [] then s else After(Apply(s, steps[0]), steps[1..])
  }

  /** Bytes in the gathered count that are not in the total yet. */
  function Untotalled(workers: seq<Worker>): int {
    if workers == [] then 0 else (if workers[0].Pushed? then workers[0].n else 0) + Untotalled(workers[1..])
  }

  /** Bytes in the total that no tracker has been credited with yet. */
  function Uncredited(workers: seq<Worker>): int {
    if workers == [] then 0 else (if workers[0].Totalled? then workers[0].n else 0) + Uncredited(workers[1..])
  }

  lemma {:induction false} WorkersUpdate(workers: seq<Worker>, w: nat, x: Worker)
    requires w < |workers|
    ensures Untotalled(workers[w := x]) + (if workers[w].Pushed? then workers[w].n else 0)
            == Untotalled(workers) + (if x.Pushed? then x.n else 0)
    ensures Uncredited(workers[w := x]) + (if workers[w].Totalled? then workers[w].n else 0)
            == Uncredited(workers) + (if x.Totalled? then x.n else 0)
  {
    if w > 0 {
      WorkersUpdate(workers[1..], w - 1, x);
      assert workers[w := x][1..] == workers[1..][w - 1 := x];
    } else {
      assert workers[0 := x][1..] == workers[1..];
    }
  }

  /** What the schedule says was moved. */
  function Moved(steps: seq<Step>): int {
    if steps == [] then 0 else (if steps[0].AddTemp? then steps[0].n else 0) + Moved(steps[1..])
  }

  /** Whether the ticker stands between a `Load` and its `Store(0)`, and what has landed since that `Load`. */
  datatype Window = Shut | Open(landed: int)

  function Next(window: Window, step: Step): Window {
    match step
    case Load => Open(0)
    case Zero => Shut
    case AddTemp(_, _, n) => if window.Open? then Open(window.landed + n) else Shut
    case _ => window
  }

  /** The bytes of a schedule that were added between a `Load` and the `Store(0)` that follows it. */
  function Lost(window: Window, steps: seq<Step>): int
    decreases |steps|
  {
    if steps == [] then 0
    else
      (if steps[0].Zero? && window.Open? then window.landed else 0) + Lost(Next(window, steps[0]), steps[1..])
  }

  /** Between its `Load` and its `Store(0)` the ticker's view is out of date by what has landed since, and by
      what resets have taken. */
  predicate InStep(s: Stats, window: Window) {
    match s.ticker
    case Waiting => window.Shut? && s.pending == 0
    case Loaded(v) => window.Open? && s.temp + s.pending == v + window.landed
    case Published(v) => window.Open? && s.temp + s.pending == v + window.landed
  }

  lemma {:induction false} SamplesAndLosses(s: Stats, window: Window, steps: seq<Step>)
    requires Possible(s, steps) && InStep(s, window)
    ensures var t := After(s, steps);
            Sum(t.samples) + t.temp + t.erased + t.pending + Lost(window, steps)
            == Sum(s.samples) + s.temp + s.erased + s.pending + Moved(steps)
    decreases |steps|
  {
    if steps != [] {
      if steps[0].Zero? {
        SumSnoc(s.samples, s.ticker.v);
      }
      SamplesAndLosses(Apply(s, steps[0]), Next(window, steps[0]), steps[1..]);
    }
  }

  function AllIdle(workers: nat): seq<Worker> {
    if workers == 0 then [] else [Idle] + AllIdle(workers - 1)
  }

  function Fresh(workers: nat): Stats {
    Stats(0, 0, 0, [], {}, AllIdle(workers), Waiting, [], 0, 0, 0)
  }

  lemma {:induction false} FreshOwesNothing(workers: nat)
    ensures Untotalled(AllIdle(workers)) == 0 && Uncredited(AllIdle(workers)) == 0
  {
    if workers > 0 {
      assert AllIdle(workers)[1..] == AllIdle(workers - 1);
      FreshOwesNothing(workers - 1);
    }
  }

  /** In every run the samples and what has gathered since make up what was moved, short of exactly the bytes
      that landed between a `Load` and its `Store(0)`, and of those that resets have taken. */
  lemma SamplerLosesExactly(workers: nat, steps: seq<Step>)
    requires Possible(Fresh(workers), steps)
    ensures var s := After(Fresh(workers), steps);
            Sum(s.samples) + s.temp + s.erased + s.pending + Lost(Shut, steps) == Moved(steps)
  {
    SamplesAndLosses(Fresh(workers), Shut, steps);
  }

  predicate NonNegative(steps: seq<Step>) {
    forall i :: 0 <= i < |steps| ==> steps[i].AddTemp? ==> 0 <= steps[i].n
  }

  lemma {:induction false} LossIsNotNegative(window: Window, steps: seq<Step>)
    requires NonNegative(steps) && (window.Open? ==> 0 <= window.landed)
    ensures 0 <= Lost(window, steps)
    decreases |steps|
  {
    if steps != [] {
      LossIsNotNegative(Next(window, steps[0]), steps[1..]);
    }
  }

  lemma {:induction false} LedgersAreNotNegative(s: Stats, steps: seq<Step>)
    requires Possible(s, steps) && NonNegative(steps) && 0 <= s.temp && 0 <= s.erased && 0 <= s.pending
    ensures var t := After(s, steps); 0 <= t.temp && 0 <= t.erased && 0 <= t.pending
    decreases |steps|
  {
    if steps != [] {
      assert steps[0].AddTemp? ==> 0 <= steps[0].n;
      LedgersAreNotNegative(Apply(s, steps[0]), steps[1..]);
    }
  }

  /** Sampling never invents traffic. */
  lemma SamplesNeverExceed(workers: nat, steps: seq<Step>)
    requires Possible(Fresh(workers), steps) && NonNegative(steps)
    ensures Sum(After(Fresh(workers), steps).samples) + After(Fresh(workers), steps).temp <= Moved(steps)
  {
    SamplerLosesExactly(workers, steps);
    LossIsNotNegative(Shut, steps);
    LedgersAreNotNegative(Fresh(workers), steps);
  }

  /** It does lose traffic: one push lands after the `Load`, and neither sample nor gathered count has it. */
  lemma SamplerLoses()
    ensures var steps := [Join, Load, AddTemp(0, 0, 7), Publish, Zero];
            Possible(Fresh(1), steps) && After(Fresh(1), steps).samples == [0] && After(Fresh(1), steps).temp == 0
  {
    var s := Fresh(1);
    assert AllIdle(1) == [Idle] + AllIdle(0);
    var s1 := Apply(s, Join);
    var s2 := Apply(s1, Load);
    var s3 := Apply(s2, AddTemp(0, 0, 7));
    var s4 := Apply(s3, Publish);
    var s5 := Apply(s4, Zero);
    Prepend(s4, Zero, []);
    Prepend(s3, Publish, [Zero]);
    Prepend(s2, AddTemp(0, 0, 7), [Publish, Zero]);
    Prepend(s1, Load, [AddTemp(0, 0, 7), Publish, Zero]);
    Prepend(s, Join, [Load, AddTemp(0, 0, 7), Publish, Zero]);
    assert [Join] + [Load, AddTemp(0, 0, 7), Publish, Zero] == [Join, Load, AddTemp(0, 0, 7), Publish, Zero];
    assert [Load] + [AddTemp(0, 0, 7), Publish, Zero] == [Load, AddTemp(0, 0, 7), Publish, Zero];
    assert [AddTemp(0, 0, 7)] + [Publish, Zero] == [AddTemp(0, 0, 7), Publish, Zero];
    assert [Publish] + [Zero] == [Publish, Zero];
    assert [Zero] + [] == [Zero];
  }

  lemma Prepend(s: Stats, step: Step, steps: seq<Step>)
    requires Enabled(s, step) && Possible(Apply(s, step), steps)
    ensures Possible(s, [step] + steps) && After(s, [step] + steps) == After(Apply(s, step), steps)
  {
    assert ([step] + steps)[1..] == steps;
  }

  /** The total, with what resets have taken from it, is what the trackers were credited with and what is still
      on its way to them. */
  predicate Balanced(s: Stats) {
    s.total + s.wiped == Sum(s.trackers) + Uncredited(s.workers)
  }

  lemma StepBalances(s: Stats, step: Step)
    requires Balanced(s) && Enabled(s, step)
    ensures Balanced(Apply(s, step))
    ensures Apply(s, step).total + Apply(s, step).wiped + Untotalled(Apply(s, step).workers)
            == s.total + s.wiped + Untotalled(s.workers) + (if step.AddTemp? then step.n else 0)
  {
    match step
    case Join => SumSnoc(s.trackers, 0);
    case AddTemp(w, k, n) => WorkersUpdate(s.workers, w, Pushed(k, n));
    case AddTotal(w) => WorkersUpdate(s.workers, w, Totalled(s.workers[w].tracker, s.workers[w].n));
    case Credit(w) =>
      var k := s.workers[w].tracker;
      WorkersUpdate(s.workers, w, Idle);
      SumUpdate(s.trackers, k, s.trackers[k] + s.workers[w].n);
    case _ =>
  }

  lemma {:induction false} RunBalances(s: Stats, steps: seq<Step>)
    requires Balanced(s) && Possible(s, steps)
    ensures var t := After(s, steps);
            && Balanced(t)
            && t.total + t.wiped + Untotalled(t.workers) == s.total + s.wiped + Untotalled(s.workers) + Moved(steps)
    decreases |steps|
  {
    if steps != [] {
      StepBalances(s, steps[0]);
      RunBalances(Apply(s, steps[0]), steps[1..]);
    }
  }

  /** In every run, with or without sampling and resets: the manager's total, and what resets have taken from
      it, is the sum of the totals of all trackers, closed ones included, plus what is not credited yet; and it
      is what was moved, less what is only gathered so far. */
  lemma TotalsAgree(workers: nat, steps: seq<Step>)
    requires Possible(Fresh(workers), steps)
    ensures var s := After(Fresh(workers), steps);
            && s.total + s.wiped == Sum(s.trackers) + Uncredited(s.workers)
            && s.total + s.wiped + Untotalled(s.workers) == Moved(steps)
  {
    FreshOwesNothing(workers);
    RunBalances(Fresh(workers), steps);
  }

  /** Identities are never reused, and only `Leave` takes a tracker off the list. */
  lemma {:induction false} ListedExactly(s: Stats, steps: seq<Step>, k: nat)
    requires Possible(s, steps) && (forall j :: j in s.connections ==> j < |s.trackers|)
    ensures |s.trackers| <= |After(s, steps).trackers|
    ensures k < |s.trackers| ==> (k in After(s, steps).connections <==> k in s.connections && Leave(k) !in steps)
    ensures k >= |s.trackers| ==>
              (k in After(s, steps).connections <==> k < |After(s, steps).trackers| && Leave(k) !in steps)
    decreases |steps|
  {
    if steps != [] {
      assert steps == [steps[0]] + steps[1..];
      ListedExactly(Apply(s, steps[0]), steps[1..], k);
    }
  }

  /** `Snapshot` lists a tracker exactly when it has joined and has not left. */
  lemma SnapshotListsOpenTrackers(workers: nat, steps: seq<Step>, k: nat)
    requires Possible(Fresh(workers), steps)
    ensures var s := After(Fresh(workers), steps);
            k in s.connections <==> k < |s.trackers| && Leave(k) !in steps
  {
    ListedExactly(Fresh(workers), steps, k);
  }

  /** The manager as one goroutine uses it when it is alone: each method is its atomic steps in order. The
      totals a tracker keeps are listed by the tracker's identity. */
  class Manager {
    var connections: set<nat>
    var uploadTemp: int
    var downloadTemp: int
    var uploadBlip: int
    var downloadBlip: int
    var uploadTotal: int
    var downloadTotal: int
    var trackerUploads: seq<int>
    var trackerDownloads: seq<int>
    ghost var uploadSamples: seq<int>
    ghost var downloadSamples: seq<int>
    ghost var uploadTaken: (int, int)   // by resets, from the total and from the gathered bytes
    ghost var downloadTaken: (int, int)

    ghost function Up(): Stats
      reads this
    {
      Stats(uploadTemp, uploadBlip, uploadTotal, trackerUploads, connections, [Idle], Waiting, uploadSamples,
            uploadTaken.0, uploadTaken.1, 0)
    }

    ghost function Down(): Stats
      reads this
    {
      Stats(downloadTemp, downloadBlip, downloadTotal, trackerDownloads, connections, [Idle], Waiting,
            downloadSamples, downloadTaken.0, downloadTaken.1, 0)
    }

    ghost predicate Valid()
      reads this
    {
      |trackerUploads| == |trackerDownloads| && Balanced(Up()) && Balanced(Down())
    }

    constructor ()
      ensures Valid() && Up() == Down() == Stats(0, 0, 0, [], {}, [Idle], Waiting, [], 0, 0, 0)
    {
      connections := {};
      uploadTemp, uploadBlip, uploadTotal, trackerUploads, uploadSamples := 0, 0, 0, [], [];
      downloadTemp, downloadBlip, downloadTotal, trackerDownloads, downloadSamples := 0, 0, 0, [], [];
      uploadTaken, downloadTaken := (0, 0), (0, 0);
      new;
      assert Up() == Down();
      StartsBalanced(Up());
    }

    /** `NewTCPTracker` and `NewUDPTracker`: a tracker with empty totals joins. */
    method NewTracker() returns (id: nat)
      requires Valid()
      modifies this
      ensures Valid() && id == |old(trackerUploads)|
      ensures Up() == Apply(old(Up()), Join) && Down() == Apply(old(Down()), Join)
    {
      id := |trackerUploads|;
      StepBalances(Up(), Join);
      StepBalances(Down(), Join);
      trackerUploads, trackerDownloads := trackerUploads + [0], trackerDownloads + [0];
      connections := connections + {id};
    }

    /** `Close` of a tracker: it leaves, and keeps its totals. */
    method Close(id: nat)
      requires Valid() && id < |trackerUploads|
      modifies this
      ensures Valid()
      ensures Up() == Apply(old(Up()), Leave(id)) && Down() == Apply(old(Down()), Leave(id))
    {
      connections := connections - {id};
    }

    /** A tracker's `Write` or `WriteTo` of `n` bytes: `PushUploaded`, then its own total. */
    method Uploaded(id: nat, n: int)
      requires Valid() && id < |trackerUploads|
      modifies this
      ensures Valid() && Down() == old(Down())
      ensures var steps := [AddTemp(0, id, n), AddTotal(0), Credit(0)];
              Possible(old(Up()), steps) && Up() == After(old(Up()), steps)
    {
      AloneMoves(Up(), id, n);
      uploadTemp := uploadTemp + n;
      uploadTotal := uploadTotal + n;
      trackerUploads := trackerUploads[id := trackerUploads[id] + n];
    }

    /** A tracker's `Read` or `ReadFrom` of `n` bytes: `PushDownloaded`, then its own total. */
    method Downloaded(id: nat, n: int)
      requires Valid() && id < |trackerDownloads|
      modifies this
      ensures Valid() && Up() == old(Up())
      ensures var steps := [AddTemp(0, id, n), AddTotal(0), Credit(0)];
              Possible(old(Down()), steps) && Down() == After(old(Down()), steps)
    {
      AloneMoves(Down(), id, n);
      downloadTemp := downloadTemp + n;
      downloadTotal := downloadTotal + n;
      trackerDownloads := trackerDownloads[id := trackerDownloads[id] + n];
    }

    /** `ResetStatistic`: the trackers keep their totals. */
    method ResetStatistic()
      requires Valid()
      modifies this
      ensures Valid()
      ensures var steps := [ResetTemp, ResetBlip, ResetTotal];
              && Possible(old(Up()), steps) && Up() == After(old(Up()), steps)
              && Possible(old(Down()), steps) && Down() == After(old(Down()), steps)
    {
      hide Apply, Possible, After, Balanced;
      AloneResets(Up());
      AloneResets(Down());
      uploadTaken := (uploadTaken.0 + uploadTotal, uploadTaken.1 + uploadTemp);
      uploadTemp := 0;
      uploadBlip := 0;
      uploadTotal := 0;
      downloadTaken := (downloadTaken.0 + downloadTotal, downloadTaken.1 + downloadTemp);
      downloadTemp := 0;
      downloadBlip := 0;
      downloadTotal := 0;
    }

    /** One round of `handle`. */
    method Tick()
      requires Valid()
      modifies this
      ensures Valid()
      ensures var steps := [Load, Publish, Zero];
              && Possible(old(Up()), steps) && Up() == After(old(Up()), steps)
              && Possible(old(Down()), steps) && Down() == After(old(Down()), steps)
    {
      hide Apply, Possible, After, Balanced;
      AloneTicks(Up());
      AloneTicks(Down());
      uploadBlip := uploadTemp;
      uploadTemp, uploadSamples := 0, uploadSamples + [uploadBlip];
      downloadBlip := downloadTemp;
      downloadTemp, downloadSamples := 0, downloadSamples + [downloadBlip];
    }
  }

  lemma StartsBalanced(s: Stats)
    requires s == Stats(0, 0, 0, [], {}, [Idle], Waiting, [], 0, 0, 0)
    ensures Balanced(s)
  {
    assert s.workers[1..] == [];
  }

  lemma OneStep(s: Stats, c: Step)
    requires Enabled(s, c)
    ensures Possible(s, [c]) && After(s, [c]) == Apply(s, c)
  {
    assert [c][1..] == [];
    assert After(Apply(s, c), [c][1..]) == Apply(s, c);
  }

  lemma ThreeSteps(s: Stats, a: Step, b: Step, c: Step)
    requires Enabled(s, a) && Enabled(Apply(s, a), b) && Enabled(Apply(Apply(s, a), b), c)
    ensures Possible(s, [a, b, c]) && After(s, [a, b, c]) == Apply(Apply(Apply(s, a), b), c)
  {
    var s1 := Apply(s, a);
    var s2 := Apply(s1, b);
    assert [c][1..] == [] && [b, c][1..] == [c] && [a, b, c][1..] == [b, c];
    OneStep(s2, c);
    assert Possible(s1, [b, c]) && After(s1, [b, c]) == Apply(s2, c);
  }

  lemma AloneMoves(s: Stats, k: nat, n: int)
    requires Balanced(s) && s.workers == [Idle] && k < |s.trackers|
    ensures var steps := [AddTemp(0, k, n), AddTotal(0), Credit(0)];
            var t := s.(temp := s.temp + n, total := s.total + n, trackers := s.trackers[k := s.trackers[k] + n]);
            Possible(s, steps) && After(s, steps) == t && Balanced(t)
  {
    ThreeSteps(s, AddTemp(0, k, n), AddTotal(0), Credit(0));
    assert Apply(Apply(Apply(s, AddTemp(0, k, n)), AddTotal(0)), Credit(0)).workers == [Idle];
    RunBalances(s, [AddTemp(0, k, n), AddTotal(0), Credit(0)]);
  }

  lemma AloneResets(s: Stats)
    requires Balanced(s) && s.ticker == Waiting
    ensures var t := s.(temp := 0, blip := 0, total := 0, wiped := s.wiped + s.total, erased := s.erased + s.temp);
            && Possible(s, [ResetTemp, ResetBlip, ResetTotal])
            && After(s, [ResetTemp, ResetBlip, ResetTotal]) == t && Balanced(t)
  {
    ThreeSteps(s, ResetTemp, ResetBlip, ResetTotal);
  }

  lemma AloneTicks(s: Stats)
    requires Balanced(s) && s.ticker == Waiting && s.pending == 0
    ensures var t := s.(temp := 0, blip := s.temp, samples := s.samples + [s.temp]);
            Possible(s, [Load, Publish, Zero]) && After(s, [Load, Publish, Zero]) == t && Balanced(t)
  {
    ThreeSteps(s, Load, Publish, Zero);
  }
}
