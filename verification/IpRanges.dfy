/** The IP range index: inclusive address ranges, merged once and searched by bisection.  `max`
    is the highest address of the family, so one module serves IPv4 and IPv6. */
module IpRanges {
  import opened Wrappers

  const MAX_V4: nat := 0xFFFF_FFFF
  const MAX_V6: nat := 0xFFFF_FFFF_FFFF_FFFF_FFFF_FFFF_FFFF_FFFF

  datatype Range = Range(start: nat, end: nat)

  predicate Valid(ranges: seq<Range>, max: nat) {
    forall i :: 0 <= i < |ranges| ==> ranges[i].start <= ranges[i].end <= max
  }

  predicate InRange(r: Range, ip: nat) {
    r.start <= ip <= r.end
  }

  /** The linear scan: some range covers the address. */
  predicate Covers(ranges: seq<Range>, ip: nat) {
    exists i :: 0 <= i < |ranges| && InRange(ranges[i], ip)
  }

  ghost predicate SameCover(a: seq<Range>, b: seq<Range>) {
    forall ip: nat :: Covers(a, ip) <==> Covers(b, ip)
  }

  predicate SortedByStart(ranges: seq<Range>) {
    forall i, j :: 0 <= i < j < |ranges| ==> ranges[i].start <= ranges[j].start
  }

  /** Sorted, and between neighbours at least one address is covered by neither. */
  predicate Canonical(ranges: seq<Range>) {
    && (forall i :: 0 <= i < |ranges| ==> ranges[i].start <= ranges[i].end)
    && (forall i, j :: 0 <= i < j < |ranges| ==> ranges[i].end + 1 < ranges[j].start)
  }

  function SaturatingAdd(a: nat, b: nat, max: nat): nat {
    if a + b > max then max else a + b
  }

  function Max(a: nat, b: nat): nat {
    if a < b then b else a
  }

  // ----- covers

  lemma CoversConcat(a: seq<Range>, b: seq<Range>, ip: nat)
    ensures Covers(a + b, ip) <==> Covers(a, ip) || Covers(b, ip)
  {
    if Covers(a, ip) {
      var i :| 0 <= i < |a| && InRange(a[i], ip);
      assert InRange((a + b)[i], ip);
    }
    if Covers(b, ip) {
      var i :| 0 <= i < |b| && InRange(b[i], ip);
      assert InRange((a + b)[|a| + i], ip);
    }
  }

  lemma CoversOne(r: Range, ip: nat)
    ensures Covers([r], ip) <==> InRange(r, ip)
  {
    assert [r][0] == r;
  }

  lemma PermutationCovers(a: seq<Range>, b: seq<Range>, ip: nat)
    requires multiset(a) == multiset(b)
    ensures Covers(a, ip) ==> Covers(b, ip)
  {
    if Covers(a, ip) {
      var i :| 0 <= i < |a| && InRange(a[i], ip);
      assert a[i] in multiset(a);
      assert a[i] in b;
    }
  }

  lemma PermutationValid(a: seq<Range>, b: seq<Range>, max: nat)
    requires multiset(a) == multiset(b) && Valid(a, max)
    ensures Valid(b, max)
  {
    forall i | 0 <= i < |b|
      ensures b[i].start <= b[i].end <= max
    {
      assert b[i] in multiset(b);
      assert b[i] in a;
    }
  }

  // ----- merging

  method InsertByStart(sorted: seq<Range>, r: Range) returns (out: seq<Range>)
    requires SortedByStart(sorted)
    ensures multiset(out) == multiset(sorted) + multiset{r} && SortedByStart(out)
  {
    var k := 0;
    while k < |sorted| && sorted[k].start <= r.start
      invariant 0 <= k <= |sorted|
      invariant forall j :: 0 <= j < k ==> sorted[j].start <= r.start
    {
      k := k + 1;
    }
    assert sorted == sorted[..k] + sorted[k..];
    InsertKeepsSorted(sorted, k, r);
    out := sorted[..k] + [r] + sorted[k..];
  }

  lemma InsertKeepsSorted(sorted: seq<Range>, k: nat, r: Range)
    requires SortedByStart(sorted) && k <= |sorted|
    requires forall j :: 0 <= j < k ==> sorted[j].start <= r.start
    requires k < |sorted| ==> r.start < sorted[k].start
    ensures SortedByStart(sorted[..k] + [r] + sorted[k..])
  {
    var out := sorted[..k] + [r] + sorted[k..];
    forall i, j | 0 <= i < j < |out|
      ensures out[i].start <= out[j].start
    {
      var x := if i < k then sorted[i] else if i == k then r else sorted[i - 1];
      var y := if j < k then sorted[j] else if j == k then r else sorted[j - 1];
      assert out[i] == x && out[j] == y;
      assert j > k ==> r.start <= sorted[j - 1].start;
    }
  }

  /** Stands for the library's unstable sort: all that callers may use is that the result is
      sorted by start and holds the same ranges; how ties come out is left open. */
  method SortUnstableByStart(ranges: seq<Range>) returns (sorted: seq<Range>)
    ensures multiset(sorted) == multiset(ranges) && SortedByStart(sorted)
  {
    sorted := [];
    for i := 0 to |ranges|
      invariant multiset(sorted) == multiset(ranges[..i]) && SortedByStart(sorted)
    {
      assert ranges[..i + 1] == ranges[..i] + [ranges[i]];
      sorted := InsertByStart(sorted, ranges[i]);
    }
    assert ranges[..|ranges|] == ranges;
  }

  lemma CanonicalSnoc(done: seq<Range>, cur: Range, r: Range)
    requires Canonical(done + [cur]) && cur.end + 1 < r.start <= r.end
    ensures Canonical(done + [cur] + [r])
  {
    var c := done + [cur];
    assert c[|done|] == cur;
  }

  lemma CanonicalWiden(done: seq<Range>, cur: Range, end: nat)
    requires Canonical(done + [cur]) && cur.end <= end
    ensures Canonical(done + [Range(cur.start, end)])
  {
    var c, w := done + [cur], done + [Range(cur.start, end)];
    assert forall i :: 0 <= i < |done| ==> w[i] == c[i] == done[i];
    assert c[|done|] == cur;
  }

  /** The ranges seen so far, as the loop holds them: those pushed, and the current one. */
  lemma MergeStep(done: seq<Range>, cur: Range, r: Range, max: nat, ip: nat)
    requires cur.start <= cur.end <= max && r.start <= r.end <= max && cur.start <= r.start
    requires r.start <= SaturatingAdd(cur.end, 1, max)
    ensures Covers(done + [Range(cur.start, Max(cur.end, r.end))], ip) <==> Covers(done + [cur] + [r], ip)
  {
    var merged := Range(cur.start, Max(cur.end, r.end));
    CoversConcat(done, [merged], ip);
    CoversConcat(done + [cur], [r], ip);
    CoversConcat(done, [cur], ip);
    CoversOne(merged, ip);
    CoversOne(cur, ip);
    CoversOne(r, ip);
  }

  lemma SameCoverRefl(a: seq<Range>)
    ensures SameCover(a, a)
  {
  }

  lemma FewAreCanonical(a: seq<Range>)
    requires |a| <= 1 && forall i :: 0 <= i < |a| ==> a[i].start <= a[i].end
    ensures Canonical(a)
  {
  }

  /** Past the saturated end there is a gap, also at the greatest address. */
  lemma GapWide(end: nat, start: nat, rangeEnd: nat, max: nat)
    requires start > SaturatingAdd(end, 1, max) && start <= rangeEnd <= max
    ensures end + 1 < start
  {
  }

  lemma Widened(done: seq<Range>, cur: Range, r: Range, seen: seq<Range>, max: nat)
    requires cur.start <= cur.end <= max && r.start <= r.end <= max && cur.start <= r.start
    requires r.start <= SaturatingAdd(cur.end, 1, max) && SameCover(done + [cur], seen)
    ensures SameCover(done + [Range(cur.start, Max(cur.end, r.end))], seen + [r])
  {
    hide Covers, SaturatingAdd;
    forall ip: nat
      ensures Covers(done + [Range(cur.start, Max(cur.end, r.end))], ip) <==> Covers(seen + [r], ip)
    {
      MergeStep(done, cur, r, max, ip);
      CoversConcat(done + [cur], [r], ip);
      CoversConcat(seen, [r], ip);
    }
  }

  lemma Pushed(done: seq<Range>, seen: seq<Range>, r: Range)
    requires SameCover(done, seen)
    ensures SameCover(done + [r], seen + [r])
  {
    hide Covers;
    forall ip: nat
      ensures Covers(done + [r], ip) <==> Covers(seen + [r], ip)
    {
      CoversConcat(done, [r], ip);
      CoversConcat(seen, [r], ip);
    }
  }

  lemma PermutationSameCover(c: seq<Range>, a: seq<Range>, b: seq<Range>)
    requires SameCover(c, a) && multiset(a) == multiset(b)
    ensures SameCover(c, b)
  {
    hide Covers;
    forall ip: nat
      ensures Covers(c, ip) <==> Covers(b, ip)
    {
      PermutationCovers(a, b, ip);
      PermutationCovers(b, a, ip);
    }
  }

  /** The merge loop over sorted ranges. */
  method MergeRanges(ranges: seq<Range>, max: nat) returns (merged: seq<Range>)
    requires Valid(ranges, max)
    ensures Canonical(merged) && Valid(merged, max)
    ensures SameCover(merged, ranges)
    ensures |merged| <= |ranges|
  {
    hide Covers, SameCover, Canonical, SaturatingAdd;
    if |ranges| == 0 {
      FewAreCanonical([]);
      SameCoverRefl([]);
      return [];
    }
    var sorted := SortUnstableByStart(ranges);
    PermutationValid(ranges, sorted, max);
    assert |sorted| == |multiset(sorted)| == |multiset(ranges)| == |ranges|;
    merged := [];
    var curStart: nat, curEnd: nat := sorted[0].start, sorted[0].end;
    assert sorted[..1] == [sorted[0]] == merged + [Range(curStart, curEnd)];
    FewAreCanonical([sorted[0]]);
    SameCoverRefl([sorted[0]]);
    for i := 1 to |sorted|
      invariant curStart <= curEnd <= max && Valid(merged, max) && |merged| < i
      invariant Canonical(merged + [Range(curStart, curEnd)])
      invariant forall k :: i <= k < |sorted| ==> curStart <= sorted[k].start
      invariant SameCover(merged + [Range(curStart, curEnd)], sorted[..i])
    {
      var start, end := sorted[i].start, sorted[i].end;
      ghost var before, cur := merged, Range(curStart, curEnd);
      assert sorted[..i + 1] == sorted[..i] + [sorted[i]];
      if start <= SaturatingAdd(curEnd, 1, max) {
        curEnd := Max(curEnd, end);
        CanonicalWiden(before, cur, curEnd);
        Widened(before, cur, sorted[i], sorted[..i], max);
      } else {
        merged := merged + [Range(curStart, curEnd)];
        curStart := start;
        curEnd := end;
        GapWide(cur.end, start, sorted[i].end, max);
        CanonicalSnoc(before, cur, sorted[i]);
        Pushed(merged, sorted[..i], sorted[i]);
      }
    }
    assert sorted[..|sorted|] == sorted;
    merged := merged + [Range(curStart, curEnd)];
    PermutationSameCover(merged, sorted, ranges);
  }

  // ----- the canonical form is unique and shortest

  lemma FirstCovered(c: seq<Range>, ip: nat)
    requires Canonical(c) && c != [] && Covers(c, ip)
    ensures c[0].start <= ip
  {
    var i :| 0 <= i < |c| && InRange(c[i], ip);
  }

  /** What the tail of a canonical list covers: what the list covers beyond its first range. */
  lemma TailCovers(c: seq<Range>, ip: nat)
    requires Canonical(c) && c != []
    ensures Covers(c[1..], ip) <==> Covers(c, ip) && ip > c[0].end
  {
    assert c == [c[0]] + c[1..];
    CoversConcat([c[0]], c[1..], ip);
    CoversOne(c[0], ip);
    if Covers(c[1..], ip) {
      FirstCovered(c[1..], ip);
    }
  }

  lemma EndIsNotFollowed(c: seq<Range>)
    requires Canonical(c) && c != []
    ensures !Covers(c, c[0].end + 1)
  {
    TailCovers(c, c[0].end + 1);
  }

  /** Every address from the first start to the first end is covered, in both lists. */
  lemma FirstsAgree(a: seq<Range>, b: seq<Range>)
    requires Canonical(a) && Canonical(b) && a != [] && b != [] && SameCover(a, b)
    ensures a[0] == b[0]
  {
    CoversFirst(a, a[0].start);
    CoversFirst(b, b[0].start);
    FirstCovered(a, b[0].start);
    FirstCovered(b, a[0].start);
    EndIsNotFollowed(a);
    EndIsNotFollowed(b);
  }

  lemma CoversFirst(c: seq<Range>, ip: nat)
    requires c != [] && InRange(c[0], ip)
    ensures Covers(c, ip)
  {
  }

  /** Two canonical lists that cover the same addresses are the same list. */
  lemma {:induction false} CanonicalIsUnique(a: seq<Range>, b: seq<Range>)
    requires Canonical(a) && Canonical(b) && SameCover(a, b)
    ensures a == b
    decreases |a|
  {
    if a == [] {
      if b != [] {
        CoversFirst(b, b[0].start);
      }
    } else if b == [] {
      CoversFirst(a, a[0].start);
    } else {
      FirstsAgree(a, b);
      forall ip: nat
        ensures Covers(a[1..], ip) <==> Covers(b[1..], ip)
      {
        TailCovers(a, ip);
        TailCovers(b, ip);
      }
      CanonicalIsUnique(a[1..], b[1..]);
      assert a == [a[0]] + a[1..] && b == [b[0]] + b[1..];
    }
  }

  /** Which range of `r` covers the start of the i-th range of `c`. */
  ghost function Witness(c: seq<Range>, r: seq<Range>, i: nat): (k: nat)
    requires i < |c| && c[i].start <= c[i].end && SameCover(c, r)
    ensures k < |r| && InRange(r[k], c[i].start)
  {
    assert InRange(c[i], c[i].start);
    assert Covers(c, c[i].start);
    assert Covers(r, c[i].start);
    var k :| 0 <= k < |r| && InRange(r[k], c[i].start);
    k
  }

  lemma GapIsNotCovered(c: seq<Range>, i: nat)
    requires Canonical(c) && i < |c|
    ensures !Covers(c, c[i].end + 1)
  {
  }

  /** No range of any list with the same cover reaches two of the canonical ranges. */
  lemma WitnessesDiffer(c: seq<Range>, r: seq<Range>, i: nat, j: nat)
    requires Canonical(c) && SameCover(c, r) && i < j < |c|
    ensures Witness(c, r, i) != Witness(c, r, j)
  {
    var k := Witness(c, r, i);
    if k == Witness(c, r, j) {
      assert InRange(r[k], c[i].end + 1);
      assert Covers(r, c[i].end + 1);
      GapIsNotCovered(c, i);
    }
  }

  lemma {:induction false} CountWitnesses(c: seq<Range>, r: seq<Range>, n: nat) returns (used: set<nat>)
    requires Canonical(c) && SameCover(c, r) && n <= |c|
    ensures |used| == n && forall k :: k in used ==> k < |r| && exists i :: 0 <= i < n && Witness(c, r, i) == k
    decreases n
  {
    used := {};
    if n > 0 {
      var before := CountWitnesses(c, r, n - 1);
      var k := Witness(c, r, n - 1);
      if k in before {
        var i :| 0 <= i < n - 1 && Witness(c, r, i) == k;
        WitnessesDiffer(c, r, i, n - 1);
      }
      used := before + {k};
    }
  }

  lemma {:induction false} BoundedSetIsSmall(s: set<nat>, n: nat)
    requires forall k :: k in s ==> k < n
    ensures |s| <= n
    decreases n
  {
    if n > 0 {
      BoundedSetIsSmall(s - {n - 1}, n - 1);
    } else {
      assert s == {};
    }
  }

  /** No list of ranges with the same cover is shorter than the canonical one. */
  lemma CanonicalIsShortest(c: seq<Range>, r: seq<Range>)
    requires Canonical(c) && SameCover(c, r)
    ensures |c| <= |r|
  {
    var used := CountWitnesses(c, r, |c|);
    BoundedSetIsSmall(used, |r|);
  }

  /** The merged list does not depend on the order of the table, nor on how the sort broke ties:
      any two results of merging the same ranges, in any order, are the same list.  Merging a
      merged list gives it back. */
  lemma MergeIgnoresOrder(a: seq<Range>, b: seq<Range>, x: seq<Range>, y: seq<Range>)
    requires Canonical(x) && SameCover(x, a) && Canonical(y) && SameCover(y, b)
    ensures multiset(a) == multiset(b) ==> x == y
    ensures b == x ==> y == x
  {
    if multiset(a) == multiset(b) {
      forall ip: nat
        ensures Covers(x, ip) <==> Covers(y, ip)
      {
        PermutationCovers(a, b, ip);
        PermutationCovers(b, a, ip);
      }
      CanonicalIsUnique(x, y);
    }
    if b == x {
      CanonicalIsUnique(x, y);
    }
  }

  // ----- lookup

  datatype Search = Found(index: nat) | Missing(index: nat)

  /** `binary_search_by_key` on the starts. */
  method SearchByStart(ranges: seq<Range>, ip: nat) returns (r: Search)
    requires SortedByStart(ranges)
    ensures r.Found? ==> r.index < |ranges| && ranges[r.index].start == ip
    ensures r.Missing? ==>
      && r.index <= |ranges|
      && (forall i :: 0 <= i < r.index ==> ranges[i].start < ip)
      && (forall i :: r.index <= i < |ranges| ==> ip < ranges[i].start)
  {
    var low, high := 0, |ranges|;
    while low < high
      invariant 0 <= low <= high <= |ranges|
      invariant forall i :: 0 <= i < low ==> ranges[i].start < ip
      invariant forall i :: high <= i < |ranges| ==> ip < ranges[i].start
    {
      var mid := low + (high - low) / 2;
      if ranges[mid].start == ip {
        return Found(mid);
      } else if ranges[mid].start < ip {
        low := mid + 1;
      } else {
        high := mid;
      }
    }
    return Missing(low);
  }

  method ContainsIn(ranges: seq<Range>, ip: nat) returns (found: bool)
    requires Canonical(ranges)
    ensures found <==> Covers(ranges, ip)
  {
    assert SortedByStart(ranges);
    var at := SearchByStart(ranges, ip);
    match at {
      case Found(i) =>
        assert InRange(ranges[i], ip);
        return true;
      case Missing(i) =>
        if i == 0 {
          return false;
        }
        var r := ranges[i - 1];
        assert forall k :: 0 <= k < i - 1 ==> ranges[k].end + 1 < r.start;
        return r.start <= ip && ip <= r.end;
    }
  }

  // ----- the table

  datatype Address = V4(bits: nat) | V6(bits: nat)

  predicate ValidAddress(a: Address) {
    a.bits <= if a.V4? then MAX_V4 else MAX_V6
  }

  /** A line of the table: a CIDR block, or an inclusive range (a single address is both ends). */
  datatype Entry = Net(address: Address, prefix: nat) | Span(first: Address, last: Address)

  function Width(a: Address): nat {
    if a.V4? then 32 else 128
  }

  predicate ValidEntry(e: Entry) {
    match e
    case Net(a, p) => ValidAddress(a) && p <= Width(a)
    case Span(f, l) => ValidAddress(f) && ValidAddress(l)
  }

  function Pow2(n: nat): (p: nat)
    ensures p >= 1
  {
    if n == 0 then 1 else 2 * Pow2(n - 1)
  }

  /** The number of addresses in a block. */
  function BlockSize(a: Address, prefix: nat): (size: nat)
    ensures size >= 1
  {
    if prefix <= Width(a) then Pow2(Width(a) - prefix) else 1
  }

  /** The address with its host bits cleared. */
  function Network(bits: nat, size: nat): nat
    requires size >= 1
  {
    var q: nat := bits / size;
    q * size
  }

  /** From the network address to the broadcast address. */
  function Block(a: Address, prefix: nat): Range {
    var size := BlockSize(a, prefix);
    var network := Network(a.bits, size);
    Range(network, network + (size - 1))
  }

  /** The i-th bit, counted from the least significant. */
  function Bit(n: nat, i: nat): nat {
    n / Pow2(i) % 2
  }

  /** What a line means: a block covers exactly the addresses of its family that agree with it in
      each of their first `prefix` bits. */
  predicate Means(e: Entry, ip: Address) {
    match e
    case Net(a, p) =>
      a.V4? == ip.V4? && forall i: nat :: Width(a) - p <= i < Width(a) ==> Bit(ip.bits, i) == Bit(a.bits, i)
    case Span(f, l) => f.V4? == l.V4? == ip.V4? && f.bits <= ip.bits <= l.bits
  }

  lemma MulMonotone(a: nat, b: nat, c: nat)
    requires a <= b
    ensures a * c <= b * c
  {
  }

  lemma Divide(a: nat, size: nat) returns (q: nat, r: nat)
    requires size >= 1
    ensures q == a / size && r == a % size && a == q * size + r && 0 <= r < size
  {
    q, r := a / size, a % size;
  }

  lemma BlockBounds(a: nat, size: nat, ip: nat)
    requires size >= 1
    ensures a / size * size <= ip <= a / size * size + (size - 1) <==> ip / size == a / size
  {
    var q, r := Divide(a, size);
    var n, k := Divide(ip, size);
    if n < q {
      MulMonotone(n + 1, q, size);
      assert (n + 1) * size == n * size + size;
    } else if q < n {
      MulMonotone(q + 1, n, size);
      assert (q + 1) * size == q * size + size;
    }
  }

  lemma {:induction false} Pow2Adds(a: nat, b: nat)
    ensures Pow2(a + b) == Pow2(a) * Pow2(b)
  {
    if a > 0 {
      Pow2Adds(a - 1, b);
      assert Pow2(a + b) == 2 * Pow2(a - 1 + b);
    }
  }

  lemma Pow2Of32()
    ensures Pow2(32) == MAX_V4 + 1
  {
    assert Pow2(4) == 16 by {
      assert Pow2(2) == 4;
    }
    Pow2Adds(4, 4);
    Pow2Adds(8, 8);
    Pow2Adds(16, 16);
  }

  lemma Pow2Of128()
    ensures Pow2(128) == MAX_V6 + 1
  {
    Pow2Of32();
    hide Pow2;
    Pow2Adds(32, 32);
    Pow2Adds(64, 64);
  }

  /** A block ends within an address space that is a whole number of blocks. */
  lemma BlockFits(a: nat, size: nat, blocks: nat)
    requires size >= 1 && a < blocks * size
    ensures a / size * size + (size - 1) < blocks * size
  {
    var q, r := Divide(a, size);
    if q >= blocks {
      MulMonotone(blocks, q, size);
    }
    MulMonotone(q + 1, blocks, size);
    assert (q + 1) * size == q * size + size;
  }

  lemma BlockIsValid(a: Address, prefix: nat)
    requires ValidEntry(Net(a, prefix))
    ensures var b := Block(a, prefix); b.start <= b.end <= if a.V4? then MAX_V4 else MAX_V6
  {
    Pow2Of32();
    Pow2Of128();
    Pow2Adds(prefix, Width(a) - prefix);
    hide Pow2;
    BlockFits(a.bits, BlockSize(a, prefix), Pow2(prefix));
  }

  /** Dropping one bit more is halving. */
  lemma DropOneMore(n: nat, k: nat)
    ensures n / Pow2(k) == 2 * (n / Pow2(k + 1)) + Bit(n, k)
  {
    var size := Pow2(k);
    var q, r := Divide(n, size);
    var h, b := Divide(q, 2);
    assert n == h * (2 * size) + (b * size + r) by {
      assert (h * 2 + b) * size == h * (2 * size) + b * size;
    }
    assert b * size + r < 2 * size;
    QuotientIs(n, 2 * size, h, b * size + r);
  }

  lemma QuotientIs(n: nat, size: nat, q: nat, r: nat)
    requires size >= 1 && n == q * size + r && r < size
    ensures n / size == q
  {
    var d, m := Divide(n, size);
    if d < q {
      WholeGap(d, q, size);
    } else if q < d {
      WholeGap(q, d, size);
    }
  }

  lemma WholeGap(a: nat, b: nat, size: nat)
    requires a < b
    ensures a * size + size <= b * size
  {
    MulMonotone(a + 1, b, size);
    assert (a + 1) * size == a * size + size;
  }

  lemma SmallQuotient(n: nat, size: nat)
    requires n < size
    ensures n / size == 0
  {
    QuotientIs(n, size, 0, n);
  }

  /** Two numbers of `width` bits agree without their last k bits exactly when they agree in each of
      the others. */
  lemma {:induction false} SharedPrefix(a: nat, b: nat, width: nat, k: nat)
    requires a < Pow2(width) && b < Pow2(width) && k <= width
    ensures a / Pow2(k) == b / Pow2(k) <==> forall i: nat :: k <= i < width ==> Bit(a, i) == Bit(b, i)
    decreases width - k
  {
    hide Pow2, Bit;
    if k == width {
      SmallQuotient(a, Pow2(k));
      SmallQuotient(b, Pow2(k));
    } else {
      DropOneMore(a, k);
      DropOneMore(b, k);
      BitIsBit(a, k);
      BitIsBit(b, k);
      SharedPrefix(a, b, width, k + 1);
    }
  }

  lemma BitIsBit(n: nat, i: nat)
    ensures 0 <= Bit(n, i) <= 1
  {
  }

  lemma {:induction false} BlockMeans(a: Address, prefix: nat, ip: Address)
    requires ValidEntry(Net(a, prefix)) && ValidAddress(ip) && a.V4? == ip.V4?
    ensures InRange(Block(a, prefix), ip.bits) <==> Means(Net(a, prefix), ip)
  {
    Pow2Of32();
    Pow2Of128();
    hide Pow2, Bit;
    BlockBounds(a.bits, BlockSize(a, prefix), ip.bits);
    SharedPrefix(ip.bits, a.bits, Width(a), Width(a) - prefix);
  }

  datatype TableError = Backwards | MixedVersions

  predicate Accepts(e: Entry) {
    e.Net? || (e.first.V4? == e.last.V4? && e.first.bits <= e.last.bits)
  }

  /** The lines accepted are those that cover an address at all: a range of two families covers none,
      and neither does one whose end lies before its start. */
  lemma {:induction false} AcceptedLinesCover(e: Entry)
    requires ValidEntry(e)
    ensures Accepts(e) <==> exists ip :: ValidAddress(ip) && Means(e, ip)
  {
    hide Bit;
    if Accepts(e) {
      var ip := if e.Net? then e.address else e.first;
      assert ValidAddress(ip) && Means(e, ip);
    }
  }

  predicate AllValid(entries: seq<Entry>) {
    forall i :: 0 <= i < |entries| ==> ValidEntry(entries[i])
  }

  /** Every line of the table is acceptable. */
  predicate AllAccepted(entries: seq<Entry>) {
    forall i :: 0 <= i < |entries| ==> Accepts(entries[i])
  }

  /** The ranges of one family, in table order. */
  function Ranges(entries: seq<Entry>, v4: bool): seq<Range> {
    if entries == [] then []
    else Ranges(entries[..|entries| - 1], v4) + LineRange(entries[|entries| - 1], v4)
  }

  /** The range of one line, if it is of that family. */
  function LineRange(e: Entry, v4: bool): seq<Range> {
    match e
    case Net(a, p) => if a.V4? == v4 then [Block(a, p)] else []
    case Span(f, l) => if f.V4? == v4 then [Range(f.bits, l.bits)] else []
  }

  lemma NoLines()
    ensures Ranges([], true) == [] && Ranges([], false) == [] && AllAccepted([])
  {
  }

  lemma OneMoreLine(entries: seq<Entry>, i: nat)
    requires i < |entries|
    ensures Ranges(entries[..i + 1], true) == Ranges(entries[..i], true) + LineRange(entries[i], true)
    ensures Ranges(entries[..i + 1], false) == Ranges(entries[..i], false) + LineRange(entries[i], false)
    ensures AllAccepted(entries[..i + 1]) <==> AllAccepted(entries[..i]) && Accepts(entries[i])
    ensures AllAccepted(entries) ==> Accepts(entries[i])
  {
    hide LineRange, Accepts;
    assert entries[..i + 1][..i] == entries[..i] && entries[..i + 1][i] == entries[i];
    assert entries[..i + 1] == entries[..i] + [entries[i]];
    LinesOfBoth(entries[..i], [entries[i]]);
    assert [entries[i]][0] == entries[i];
  }

  predicate SomeEntryMeans(entries: seq<Entry>, ip: Address) {
    exists i :: 0 <= i < |entries| && Means(entries[i], ip)
  }

  lemma SomeEntrySnoc(entries: seq<Entry>, ip: Address)
    requires entries != []
    ensures var k := |entries| - 1;
            SomeEntryMeans(entries, ip) <==> SomeEntryMeans(entries[..k], ip) || Means(entries[k], ip)
  {
    var k := |entries| - 1;
    if SomeEntryMeans(entries[..k], ip) {
      var i :| 0 <= i < k && Means(entries[..k][i], ip);
      assert Means(entries[i], ip);
    }
    if SomeEntryMeans(entries, ip) {
      var i :| 0 <= i < |entries| && Means(entries[i], ip);
      assert i < k ==> Means(entries[..k][i], ip);
    }
  }

  /** Scanning the ranges of an address's family is scanning the table. */
  lemma {:induction false} RangesMean(entries: seq<Entry>, ip: Address)
    requires AllValid(entries) && AllAccepted(entries) && ValidAddress(ip)
    ensures Covers(Ranges(entries, ip.V4?), ip.bits) <==> SomeEntryMeans(entries, ip)
  {
    hide LineRange, Means;
    if entries != [] {
      var front, e := entries[..|entries| - 1], entries[|entries| - 1];
      RangesMean(front, ip);
      SomeEntrySnoc(entries, ip);
      CoversConcat(Ranges(front, ip.V4?), LineRange(e, ip.V4?), ip.bits);
      LineMeans(e, ip);
    }
  }

  lemma LineMeans(e: Entry, ip: Address)
    requires ValidEntry(e) && Accepts(e) && ValidAddress(ip)
    ensures Covers(LineRange(e, ip.V4?), ip.bits) <==> Means(e, ip)
  {
    hide Block, BlockSize, Covers;
    NothingCovers(ip.bits);
    match e
    case Net(a, p) =>
      CoversOne(Block(a, p), ip.bits);
      if a.V4? == ip.V4? {
        BlockMeans(a, p, ip);
      }
    case Span(f, l) => CoversOne(Range(f.bits, l.bits), ip.bits);
  }

  lemma NothingCovers(ip: nat)
    ensures !Covers([], ip)
  {
  }

  lemma {:induction false} RangesAreValid(entries: seq<Entry>, v4: bool)
    requires AllValid(entries) && AllAccepted(entries)
    ensures Valid(Ranges(entries, v4), if v4 then MAX_V4 else MAX_V6)
  {
    hide Block, BlockSize;
    if entries != [] {
      RangesAreValid(entries[..|entries| - 1], v4);
      var e := entries[|entries| - 1];
      if e.Net? {
        BlockIsValid(e.address, e.prefix);
      }
    }
  }

  class Tables {
    var v4: seq<Range>
    var v6: seq<Range>

    constructor ()
      ensures v4 == [] && v6 == []
    {
      v4, v6 := [], [];
    }

    method PushNet(address: Address, prefix: nat)
      requires prefix <= Width(address)
      modifies this
      ensures v4 == if address.V4? then old(v4) + [Block(address, prefix)] else old(v4)
      ensures v6 == if address.V4? then old(v6) else old(v6) + [Block(address, prefix)]
    {
      var size := BlockSize(address, prefix);
      var network := Network(address.bits, size);
      var block := Range(network, network + (size - 1));
      if address.V4? {
        v4 := v4 + [block];
      } else {
        v6 := v6 + [block];
      }
    }

    method PushRange(start: Address, end: Address) returns (r: Result<(), TableError>)
      modifies this
      ensures r.Ok? <==> start.V4? == end.V4? && start.bits <= end.bits
      ensures r == Err(MixedVersions) <==> start.V4? != end.V4?
      ensures v4 == if r.Ok? && start.V4? then old(v4) + [Range(start.bits, end.bits)] else old(v4)
      ensures v6 == if r.Ok? && !start.V4? then old(v6) + [Range(start.bits, end.bits)] else old(v6)
    {
      if start.V4? && end.V4? {
        if start.bits > end.bits {
          return Err(Backwards);
        }
        v4 := v4 + [Range(start.bits, end.bits)];
      } else if start.V6? && end.V6? {
        if start.bits > end.bits {
          return Err(Backwards);
        }
        v6 := v6 + [Range(start.bits, end.bits)];
      } else {
        return Err(MixedVersions);
      }
      return Ok(());
    }

    /** Reading a table, line by line, after whatever has been read before. */
    method ReadTable(entries: seq<Entry>) returns (r: Result<(), TableError>)
      requires AllValid(entries)
      modifies this
      ensures r.Ok? <==> AllAccepted(entries)
      ensures r.Ok? ==> v4 == old(v4) + Ranges(entries, true) && v6 == old(v6) + Ranges(entries, false)
    {
      hide Ranges, AllAccepted, Block, BlockSize;
      NoLines();
      for i := 0 to |entries|
        invariant AllAccepted(entries[..i])
        invariant v4 == old(v4) + Ranges(entries[..i], true) && v6 == old(v6) + Ranges(entries[..i], false)
      {
        OneMoreLine(entries, i);
        match entries[i] {
          case Net(a, p) => PushNet(a, p);
          case Span(f, l) =>
            var pushed := PushRange(f, l);
            if pushed.Err? {
              return pushed;
            }
        }
      }
      assert entries[..|entries|] == entries;
      return Ok(());
    }
  }

  /** The index built from a table. */
  class AddressSet {
    const v4: seq<Range>
    const v6: seq<Range>

    ghost predicate Index(entries: seq<Entry>) {
      && Canonical(v4) && Canonical(v6)
      && SameCover(v4, Ranges(entries, true)) && SameCover(v6, Ranges(entries, false))
    }

    constructor (v4: seq<Range>, v6: seq<Range>)
      ensures this.v4 == v4 && this.v6 == v6
    {
      this.v4, this.v6 := v4, v6;
    }

    /** For every accepted table and every address, the index says yes exactly when some line of
        the table covers the address. */
    method Contains(ip: Address, ghost entries: seq<Entry>) returns (found: bool)
      requires Index(entries) && AllValid(entries) && AllAccepted(entries) && ValidAddress(ip)
      ensures found <==> SomeEntryMeans(entries, ip)
    {
      RangesMean(entries, ip);
      if ip.V4? {
        found := ContainsIn(v4, ip.bits);
      } else {
        found := ContainsIn(v6, ip.bits);
      }
    }
  }

  lemma {:induction false} RangesConcat(a: seq<Entry>, b: seq<Entry>, v4: bool)
    ensures Ranges(a + b, v4) == Ranges(a, v4) + Ranges(b, v4)
    decreases |b|
  {
    hide Block, BlockSize;
    if b == [] {
      assert a + b == a;
    } else {
      var k := |b| - 1;
      assert (a + b)[..|a + b| - 1] == a + b[..k];
      RangesConcat(a, b[..k], v4);
    }
  }

  lemma LinesOfBoth(a: seq<Entry>, b: seq<Entry>)
    ensures AllAccepted(a + b) <==> AllAccepted(a) && AllAccepted(b)
    ensures AllValid(a + b) <==> AllValid(a) && AllValid(b)
  {
    hide Accepts, ValidEntry;
    assert forall i :: 0 <= i < |a| ==> (a + b)[i] == a[i];
    assert forall i :: 0 <= i < |b| ==> (a + b)[|a| + i] == b[i];
  }

  /** One index of both files: each may hold lines of either family. */
  method LoadTables(first: seq<Entry>, second: seq<Entry>) returns (r: Option<AddressSet>)
    requires AllValid(first) && AllValid(second)
    ensures r.Some? <==> AllAccepted(first + second)
    ensures r.Some? ==> r.value.Index(first + second)
  {
    hide Accepts, ValidEntry, Ranges, SameCover, Canonical, Valid;
    ghost var entries := first + second;
    LinesOfBoth(first, second);
    var tables := new Tables();
    var ok := tables.ReadTable(first);
    if ok.Err? {
      return None;
    }
    ok := tables.ReadTable(second);
    if ok.Err? {
      return None;
    }
    RangesConcat(first, second, true);
    RangesConcat(first, second, false);
    assert tables.v4 == Ranges(entries, true) && tables.v6 == Ranges(entries, false);
    RangesAreValid(entries, true);
    RangesAreValid(entries, false);
    var v4 := MergeRanges(tables.v4, MAX_V4);
    var v6 := MergeRanges(tables.v6, MAX_V6);
    var set_ := new AddressSet(v4, v6);
    return Some(set_);
  }
}
