/** The backend pool: a wrapping round-robin counter and a semaphore of stream permits. */
module BackendPool {

  /** An AtomicUsize wraps at 2^64. */
  const WRAP: nat := 0x1_0000_0000_0000_0000

  // ----- round robin

  /** The channel chosen by the i-th pick after the counter stood at `start`. */
  function Picked(start: nat, i: nat, channels: nat): nat
    requires channels >= 1
  {
    (start + i) % WRAP % channels
  }

  /** How many of `length` consecutive picks chose channel `c`. */
  function PickCount(start: nat, length: nat, channels: nat, c: nat): nat
    requires channels >= 1
  {
    if length == 0 then 0
    else PickCount(start, length - 1, channels, c) + (if Picked(start, length - 1, channels) == c then 1 else 0)
  }

  /** The same without a wrap. */
  function Count(start: nat, length: nat, channels: nat, c: nat): nat
    requires channels >= 1
  {
    if length == 0 then 0
    else Count(start, length - 1, channels, c) + (if (start + length - 1) % channels == c then 1 else 0)
  }

  lemma Gap(a: nat, b: nat, n: nat)
    requires a < b
    ensures a * n + n <= b * n
  {
    assert (b - a) * n == b * n - a * n;
    assert (b - a - 1) * n >= 0;
  }

  lemma UniqueQuotient(x: nat, n: nat, q: nat, r: nat)
    requires n >= 1 && x == q * n + r && r < n
    ensures x / n == q && x % n == r
  {
    var d, m := x / n, x % n;
    assert x == d * n + m;
    if d < q {
      Gap(d, q, n);
    } else if q < d {
      Gap(q, d, n);
    }
  }

  lemma NextQuotient(x: nat, n: nat)
    requires n >= 1
    ensures (x + 1) / n == x / n + if (x + 1) % n == 0 then 1 else 0
  {
    var q, r := x / n, x % n;
    assert x == q * n + r;
    if r == n - 1 {
      assert (q + 1) * n == q * n + n;
      UniqueQuotient(x + 1, n, q + 1, 0);
    } else {
      UniqueQuotient(x + 1, n, q, r + 1);
    }
  }

  /** Shifting by n - c turns "is c" into "is 0". */
  lemma ShiftResidue(x: nat, n: nat, c: nat)
    requires c < n
    ensures (x + (n - c)) % n == 0 <==> x % n == c
  {
    var q, r := x / n, x % n;
    assert x == q * n + r;
    assert (q + 1) * n == q * n + n;
    if r >= c {
      UniqueQuotient(x + (n - c), n, q + 1, r - c);
    } else {
      UniqueQuotient(x + (n - c), n, q, r + (n - c));
    }
  }

  /** Counting channel c up to x is a division. */
  lemma {:induction false} CountClosed(start: nat, length: nat, n: nat, c: nat)
    requires c < n
    ensures Count(start, length, n, c) == (start + length + (n - 1 - c)) / n - (start + (n - 1 - c)) / n
  {
    if length > 0 {
      CountClosed(start, length - 1, n, c);
      var x := start + length - 1;
      NextQuotient(x + (n - 1 - c), n);
      ShiftResidue(x, n, c);
    }
  }

  lemma QuotientOfSum(a: nat, b: nat, n: nat)
    requires n >= 1
    ensures b / n <= (a + b) / n - a / n <= b / n + 1
  {
    var q, r, p, s := a / n, a % n, b / n, b % n;
    assert a == q * n + r && b == p * n + s;
    SumQuotient(q, r, p, s, n);
  }

  lemma SumQuotient(q: nat, r: nat, p: nat, s: nat, n: nat)
    requires r < n && s < n
    ensures (q * n + r + (p * n + s)) / n == q + p + if r + s < n then 0 else 1
  {
    var x := q * n + r + (p * n + s);
    assert x == (q + p) * n + (r + s);
    if r + s < n {
      UniqueQuotient(x, n, q + p, r + s);
    } else {
      assert x == (q + p + 1) * n + (r + s - n);
      UniqueQuotient(x, n, q + p + 1, r + s - n);
    }
  }

  lemma CountIsEven(start: nat, length: nat, n: nat, c: nat)
    requires c < n
    ensures length / n <= Count(start, length, n, c) <= length / n + 1
  {
    CountClosed(start, length, n, c);
    QuotientOfSum(start + (n - 1 - c), length, n);
  }

  lemma PickedBeforeWrap(start: nat, i: nat, n: nat)
    requires n >= 1 && start + i < WRAP
    ensures Picked(start, i, n) == (start + i) % n
  {
  }

  lemma {:induction false} PicksBeforeWrap(start: nat, length: nat, n: nat, c: nat)
    requires n >= 1 && start + length <= WRAP
    ensures PickCount(start, length, n, c) == Count(start, length, n, c)
  {
    hide Picked;
    if length > 0 {
      PicksBeforeWrap(start, length - 1, n, c);
      PickedBeforeWrap(start, length - 1, n);
    }
  }

  lemma {:induction false} PicksAcrossWrap(start: nat, length: nat, n: nat, c: nat)
    requires n >= 1 && start <= WRAP <= start + length <= 2 * WRAP
    ensures PickCount(start, length, n, c) == Count(start, WRAP - start, n, c) + Count(0, start + length - WRAP, n, c)
    decreases length
  {
    if start + length == WRAP {
      PicksBeforeWrap(start, length, n, c);
    } else {
      PicksAcrossWrap(start, length - 1, n, c);
      assert (start + length - 1) % WRAP == start + length - 1 - WRAP by {
        UniqueQuotient(start + length - 1, WRAP, 1, start + length - 1 - WRAP);
      }
    }
  }

  /** In any window of consecutive picks two channels' counts differ by at most 1, or by at most
      2 if the counter wraps once within the window. */
  lemma {:induction false} PicksAreFair(start: nat, length: nat, n: nat, c: nat, d: nat)
    requires start < WRAP && length <= WRAP && c < n && d < n
    ensures Picked(start, length, n) < n
    ensures start + length <= WRAP ==> PickCount(start, length, n, c) <= PickCount(start, length, n, d) + 1
    ensures PickCount(start, length, n, c) <= PickCount(start, length, n, d) + 2
  {
    if start + length <= WRAP {
      PicksBeforeWrap(start, length, n, c);
      PicksBeforeWrap(start, length, n, d);
      CountIsEven(start, length, n, c);
      CountIsEven(start, length, n, d);
    } else {
      PicksAcrossWrap(start, length, n, c);
      PicksAcrossWrap(start, length, n, d);
      CountIsEven(start, WRAP - start, n, c);
      CountIsEven(start, WRAP - start, n, d);
      CountIsEven(0, start + length - WRAP, n, c);
      CountIsEven(0, start + length - WRAP, n, d);
    }
  }

  /** The wrap is seamless, each pick going one channel on from the last, exactly when the number
      of channels divides 2^64. */
  lemma {:induction false} WrapIsSeamless(n: nat)
    requires n >= 1
    ensures Picked(WRAP - 1, 1, n) == (Picked(WRAP - 1, 0, n) + 1) % n <==> WRAP % n == 0
  {
    var q, r := (WRAP - 1) / n, (WRAP - 1) % n;
    assert WRAP - 1 == q * n + r;
    assert WRAP % WRAP == 0;
    assert 0 % n == 0;
    if r == n - 1 {
      assert (q + 1) * n == q * n + n;
      UniqueQuotient(WRAP, n, q + 1, 0);
      UniqueQuotient(n, n, 1, 0);
    } else {
      UniqueQuotient(WRAP, n, q, r + 1);
      UniqueQuotient(r + 1, n, 0, r + 1);
    }
  }

  /** Reducing modulo a multiple of n first changes nothing modulo n. */
  lemma ModMod(x: nat, w: nat, n: nat)
    requires n >= 1 && w >= 1 && w % n == 0
    ensures x % w % n == x % n
  {
    var q, r := x / w, x % w;
    var k := w / n;
    var p, s := r / n, r % n;
    assert x == q * w + r && w == k * n && r == p * n + s;
    Regroup(q, k, n, p);
    UniqueQuotient(x, n, q * k + p, s);
  }

  lemma Regroup(q: nat, k: nat, n: nat, p: nat)
    ensures (q * k + p) * n == q * (k * n) + p * n
  {
    assert (q * k) * n == q * (k * n);
    Distribute(q * k, p, n);
  }

  lemma Distribute(a: nat, b: nat, n: nat)
    ensures (a + b) * n == a * n + b * n
  {
  }

  lemma {:induction false} SeamlessCount(start: nat, length: nat, n: nat, c: nat)
    requires n >= 1 && WRAP % n == 0
    ensures PickCount(start, length, n, c) == Count(start, length, n, c)
    decreases length
  {
    if length > 0 {
      SeamlessCount(start, length - 1, n, c);
      ModMod(start + length - 1, WRAP, n);
    }
  }

  /** The last, incomplete round before the wrap and one pick after it: channel 0 is chosen
      twice while the last channel is not chosen at all. */
  lemma {:induction false} WrapMayRepeat(n: nat)
    requires 1 <= n <= WRAP && WRAP % n != 0
    ensures var r := WRAP % n;
            PickCount(WRAP - r, r + 1, n, 0) == 2 && PickCount(WRAP - r, r + 1, n, n - 1) == 0
  {
    var q, r := WRAP / n, WRAP % n;
    assert WRAP == q * n + r;
    PicksAcrossWrap(WRAP - r, r + 1, n, 0);
    PicksAcrossWrap(WRAP - r, r + 1, n, n - 1);
    CountFromMultiple(q, r, n);
    UniqueQuotient(0, n, 0, 0);
    assert Count(0, 0, n, 0) == 0 && Count(0, 0, n, n - 1) == 0;
    assert Count(0, 1, n, 0) == 1 && Count(0, 1, n, n - 1) == 0;
  }

  /** An incomplete round that starts at channel 0. */
  lemma {:induction false} CountFromMultiple(q: nat, length: nat, n: nat)
    requires length < n
    ensures Count(q * n, length, n, 0) == (if length == 0 then 0 else 1) && Count(q * n, length, n, n - 1) == 0
    decreases length
  {
    if length > 0 {
      CountFromMultiple(q, length - 1, n);
      UniqueQuotient(q * n + (length - 1), n, q, length - 1);
    }
  }

  /** Two channels' counts never differ by more than 1, in any window of consecutive picks. */
  ghost predicate EvenInEveryWindow(n: nat)
    requires n >= 1
  {
    forall start: nat, length: nat, c: nat, d: nat :: start < WRAP && c < n && d < n ==>
      PickCount(start, length, n, c) <= PickCount(start, length, n, d) + 1
  }

  /** For every number of channels a machine word can hold: the picks are even in every window
      exactly when that number divides 2^64. */
  lemma {:induction false} EvenExactlyWhenSeamless(n: nat)
    requires 1 <= n <= WRAP
    ensures EvenInEveryWindow(n) <==> WRAP % n == 0
  {
    if WRAP % n == 0 {
      forall start: nat, length: nat, c: nat, d: nat | start < WRAP && c < n && d < n
        ensures PickCount(start, length, n, c) <= PickCount(start, length, n, d) + 1
      {
        SeamlessCount(start, length, n, c);
        SeamlessCount(start, length, n, d);
        CountIsEven(start, length, n, c);
        CountIsEven(start, length, n, d);
      }
    } else {
      WrapMayRepeat(n);
    }
  }

  // ----- permits

  /** The least number that is neither below 1 nor below `n`. */
  function AtLeastOne(n: nat): (r: nat)
    ensures r >= n && r >= 1 && (r == n || r == 1)
  {
    if n < 1 then 1 else n
  }

  /** Relays that hold a permit and have not picked yet, and the channels of those that have.
      `picks` is history: every channel ever picked, in order. */
  datatype Pool = Pool(channels: nat, capacity: nat, next: nat, free: nat, picking: nat, live: seq<nat>, picks: seq<nat>)

  datatype Action = Acquire | Pick | Finish(i: nat) | GiveUp

  function Init(poolSize: nat, maxStreams: nat): Pool {
    var channels := AtLeastOne(poolSize);
    Pool(channels, channels * AtLeastOne(maxStreams), 0, channels * AtLeastOne(maxStreams), 0, [], [])
  }

  predicate Enabled(p: Pool, a: Action) {
    match a
    case Acquire => p.free > 0
    case Pick => p.picking > 0 && p.channels >= 1
    case Finish(i) => i < |p.live|
    case GiveUp => p.picking > 0
  }

  function Apply(p: Pool, a: Action): Pool
    requires Enabled(p, a)
  {
    match a
    case Acquire => p.(free := p.free - 1, picking := p.picking + 1)
    case Pick =>
      var c := p.next % p.channels;
      p.(next := (p.next + 1) % WRAP, picking := p.picking - 1, live := p.live + [c], picks := p.picks + [c])
    case Finish(i) => p.(free := p.free + 1, live := p.live[..i] + p.live[i + 1..])
    case GiveUp => p.(free := p.free + 1, picking := p.picking - 1)
  }

  predicate Legal(p: Pool, run: seq<Action>)
    decreases run
  {
    run == [] || (Enabled(p, run[0]) && Legal(Apply(p, run[0]), run[1..]))
  }

  function Run(p: Pool, run: seq<Action>): Pool
    requires Legal(p, run)
    decreases run
  {
    if run == [] then p else Run(Apply(p, run[0]), run[1..])
  }

  ghost predicate Inv(p: Pool) {
    && p.channels >= 1 && p.next < WRAP
    && p.free + p.picking + |p.live| == p.capacity
    && forall i :: 0 <= i < |p.live| ==> p.live[i] < p.channels
  }

  lemma {:induction false} RunKeeps(p: Pool, run: seq<Action>)
    requires Inv(p) && Legal(p, run)
    ensures Inv(Run(p, run)) && Run(p, run).capacity == p.capacity && Run(p, run).channels == p.channels
    decreases run
  {
    if run != [] {
      RunKeeps(Apply(p, run[0]), run[1..]);
    }
  }

  /** Under any interleaving, free permits and relays holding one add up to
      max(1, pool_size) * max(1, max_streams), and every channel index is in range. */
  lemma {:induction false} PermitsAreConserved(poolSize: nat, maxStreams: nat, run: seq<Action>)
    requires Legal(Init(poolSize, maxStreams), run)
    ensures var p := Run(Init(poolSize, maxStreams), run);
            var channels := if poolSize == 0 then 1 else poolSize;
            && p.free + p.picking + |p.live| == channels * (if maxStreams == 0 then 1 else maxStreams)
            && p.channels == channels && forall i :: 0 <= i < |p.live| ==> p.live[i] < channels
  {
    RunKeeps(Init(poolSize, maxStreams), run);
  }

  lemma {:induction false} Extend(p: Pool, run: seq<Action>, a: Action) returns (run': seq<Action>)
    requires Legal(p, run) && Enabled(Run(p, run), a)
    ensures run' == run + [a] && Legal(p, run') && Run(p, run') == Apply(Run(p, run), a)
    decreases run
  {
    run' := run + [a];
    if run == [] {
      assert run' == [a] && [a][1..] == [];
      assert Run(Apply(p, a), []) == Apply(p, a);
    } else {
      var rest := Extend(Apply(p, run[0]), run[1..], a);
      assert run'[1..] == rest;
    }
  }

  // ----- the picks of a run

  /** How often `c` occurs. */
  function Occurrences(s: seq<nat>, c: nat): (n: nat)
    ensures n <= |s|
  {
    if s == [] then 0
    else Occurrences(s[..|s| - 1], c) + (if s[|s| - 1] == c then 1 else 0)
  }

  /** The counter stands at the number of picks so far, and the i-th pick was the i-th from 0. */
  ghost predicate RoundRobin(p: Pool) {
    && p.channels >= 1 && p.next == |p.picks| % WRAP
    && forall i :: 0 <= i < |p.picks| ==> p.picks[i] == Picked(0, i, p.channels)
  }

  lemma NextPick(k: nat)
    ensures (k % WRAP + 1) % WRAP == (k + 1) % WRAP
  {
  }

  lemma {:induction false} PicksFollowCounter(p: Pool, run: seq<Action>)
    requires RoundRobin(p) && Legal(p, run)
    ensures RoundRobin(Run(p, run)) && Run(p, run).channels == p.channels
    decreases run
  {
    if run != [] {
      NextPick(|p.picks|);
      PicksFollowCounter(Apply(p, run[0]), run[1..]);
    }
  }

  /** Starting the counter at `from` or counting on from 0 is the same. */
  lemma PickedLater(from: nat, i: nat, n: nat)
    requires n >= 1
    ensures Picked(from % WRAP, i, n) == Picked(0, from + i, n)
  {
    assert (from % WRAP + i) % WRAP == (from + i) % WRAP;
  }

  lemma {:induction false} WindowCounts(picks: seq<nat>, from: nat, length: nat, n: nat, c: nat)
    requires n >= 1 && from + length <= |picks|
    requires forall i :: 0 <= i < |picks| ==> picks[i] == Picked(0, i, n)
    ensures Occurrences(picks[from..from + length], c) == PickCount(from % WRAP, length, n, c)
    decreases length
  {
    hide Picked;
    if length > 0 {
      var w := picks[from..from + length];
      assert w[..length - 1] == picks[from..from + (length - 1)];
      WindowCounts(picks, from, length - 1, n, c);
      PickedLater(from, length - 1, n);
    }
  }

  /** In every run of the pool, whatever acquires, drops and gives up in between: every pick is in
      range, and in any window of consecutive picks two channels are chosen equally often up to 1,
      or up to 2 if the counter wraps within the window. */
  lemma {:induction false} RunsPickFairly(
    poolSize: nat, maxStreams: nat, run: seq<Action>, from: nat, length: nat, c: nat, d: nat)
    requires Legal(Init(poolSize, maxStreams), run)
    requires from + length <= |Run(Init(poolSize, maxStreams), run).picks| && length <= WRAP
    requires var channels := if poolSize == 0 then 1 else poolSize; c < channels && d < channels
    ensures var picks := Run(Init(poolSize, maxStreams), run).picks;
            var w := picks[from..from + length];
            && (forall i :: 0 <= i < |picks| ==> picks[i] < if poolSize == 0 then 1 else poolSize)
            && (from % WRAP + length <= WRAP ==> Occurrences(w, c) <= Occurrences(w, d) + 1)
            && Occurrences(w, c) <= Occurrences(w, d) + 2
  {
    hide Legal, Run, Picked, Occurrences, PickCount;
    var n := AtLeastOne(poolSize);
    PicksFollowCounter(Init(poolSize, maxStreams), run);
    var picks := Run(Init(poolSize, maxStreams), run).picks;
    WindowCounts(picks, from, length, n, c);
    WindowCounts(picks, from, length, n, d);
    PicksAreFair(from % WRAP, length, n, c, d);
    forall i | 0 <= i < |picks|
      ensures picks[i] < n
    {
      PickedInRange(0, i, n);
    }
  }

  lemma PickedInRange(start: nat, i: nat, n: nat)
    requires n >= 1
    ensures Picked(start, i, n) < n
  {
  }

  // ----- the limit per channel

  /** Every channel always carries at most `max_streams_per_channel` streams. */
  ghost predicate ChannelLimitKept(poolSize: nat, maxStreams: nat) {
    forall run: seq<Action>, c: nat :: Legal(Init(poolSize, maxStreams), run) ==>
      Occurrences(Run(Init(poolSize, maxStreams), run).live, c) <= if maxStreams == 0 then 1 else maxStreams
  }

  function Zeros(k: nat): seq<nat> {
    seq(k, _ => 0)
  }

  lemma {:induction false} CountZeros(k: nat)
    ensures Occurrences(Zeros(k), 0) == k
  {
    if k > 0 {
      assert Zeros(k)[..k - 1] == Zeros(k - 1);
      CountZeros(k - 1);
    }
  }

  /** Picks still to go until the counter is back at 0. */
  function ToZero(p: Pool): nat
    requires p.next < WRAP
  {
    if p.next == 0 then 0 else WRAP - p.next
  }

  /** Relays that start and end at once turn the round robin on to channel 0. */
  lemma {:induction false} TurnToZero(p: Pool, run: seq<Action>) returns (run': seq<Action>)
    requires Legal(p, run) && Inv(Run(p, run)) && Run(p, run).free > 0 && Run(p, run).picking == 0
    ensures Legal(p, run')
    ensures var s, s' := Run(p, run), Run(p, run');
            && Inv(s') && s'.next % s'.channels == 0
            && s'.live == s.live && s'.free == s.free && s'.picking == 0
            && s'.channels == s.channels && s'.capacity == s.capacity
    decreases ToZero(Run(p, run))
  {
    hide Legal, Run;
    var s := Run(p, run);
    if s.next % s.channels == 0 {
      run' := run;
    } else {
      var r1 := Extend(p, run, Acquire);
      var r2 := Extend(p, r1, Pick);
      var r3 := Extend(p, r2, Finish(|s.live|));
      assert Run(p, r3).live == s.live;
      ZeroIsTurned(s.channels);
      run' := TurnToZero(p, r3);
    }
  }

  lemma ZeroIsTurned(n: nat)
    requires n >= 1
    ensures 0 % n == 0
  {
  }

  /** The limit is on the pool, not on a channel: with two channels or more, one channel can end
      up carrying all the streams the pool admits. */
  lemma {:induction false} ChannelLimitIsNotKept(poolSize: nat, maxStreams: nat, k: nat) returns (run: seq<Action>)
    requires k <= (if poolSize == 0 then 1 else poolSize) * (if maxStreams == 0 then 1 else maxStreams)
    ensures Legal(Init(poolSize, maxStreams), run)
    ensures var s := Run(Init(poolSize, maxStreams), run);
            && s.live == Zeros(k) && s.picking == 0 && Inv(s)
            && s.capacity == (if poolSize == 0 then 1 else poolSize) * (if maxStreams == 0 then 1 else maxStreams)
    decreases k
  {
    var p := Init(poolSize, maxStreams);
    if k == 0 {
      run := [];
    } else {
      run := ChannelLimitIsNotKept(poolSize, maxStreams, k - 1);
      run := TurnToZero(p, run);
      run := Extend(p, run, Acquire);
      run := Extend(p, run, Pick);
    }
  }

  /** For every configuration: the limit per channel is kept exactly when there is one channel. */
  lemma {:induction false} ChannelLimitHolds(poolSize: nat, maxStreams: nat)
    ensures ChannelLimitKept(poolSize, maxStreams) <==> poolSize <= 1
  {
    hide Legal, Run, Occurrences;
    var limit := AtLeastOne(maxStreams);
    if AtLeastOne(poolSize) == 1 {
      forall run: seq<Action>, c: nat | Legal(Init(poolSize, maxStreams), run)
        ensures Occurrences(Run(Init(poolSize, maxStreams), run).live, c) <= limit
      {
        PermitsAreConserved(poolSize, maxStreams, run);
      }
    } else {
      TwiceAsMuch(AtLeastOne(poolSize), limit);
      var run := ChannelLimitIsNotKept(poolSize, maxStreams, limit + 1);
      CountZeros(limit + 1);
    }
  }

  lemma TwiceAsMuch(channels: nat, limit: nat)
    requires channels >= 2 && limit >= 1
    ensures limit + 1 <= channels * limit
  {
  }

  // ----- the pool object

  class Backend {
    const channels: nat
    const capacity: nat
    var next: nat
    var free: nat
    ghost var picking: nat
    ghost var live: seq<nat>
    ghost var picks: seq<nat>

    ghost function View(): Pool
      reads this
    {
      Pool(channels, capacity, next, free, picking, live, picks)
    }

    constructor (poolSize: nat, maxStreams: nat)
      ensures Inv(View()) && View() == Init(poolSize, maxStreams)
    {
      var size := if poolSize < 1 then 1 else poolSize;
      channels := size;
      capacity := size * (if maxStreams < 1 then 1 else maxStreams);
      next := 0;
      free := size * (if maxStreams < 1 then 1 else maxStreams);
      picking, live, picks := 0, [], [];
    }

    /** The semaphore hands out a permit; a relay waits while there is none. */
    method AcquireStreamPermit() returns (ok: bool)
      requires Inv(View())
      modifies this
      ensures Inv(View()) && (ok <==> old(free) > 0)
      ensures View() == if ok then Apply(old(View()), Acquire) else old(View())
    {
      ok := free > 0;
      if ok {
        free := free - 1;
        picking := picking + 1;
      }
    }

    /** `fetch_add` returns the old counter and wraps. */
    method PickChannel() returns (index: nat)
      requires Inv(View()) && Enabled(View(), Pick)
      modifies this
      ensures Inv(View()) && View() == Apply(old(View()), Pick)
      ensures index == Picked(old(next), 0, channels) && live == old(live) + [index]
    {
      index := next % channels;
      next := (next + 1) % WRAP;
      picking := picking - 1;
      live, picks := live + [index], picks + [index];
    }

    /** A relay ends and drops its permit. */
    method DropPermit(ghost i: nat)
      requires Inv(View()) && Enabled(View(), Finish(i))
      modifies this
      ensures Inv(View()) && View() == Apply(old(View()), Finish(i))
    {
      free := free + 1;
      live := live[..i] + live[i + 1..];
    }
  }
}
