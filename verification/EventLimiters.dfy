/** The per-address-range token bucket (src/monitoring/EventLimiter.cpp, allowRequest, with the
    constants of src/monitoring/Limits.h).

    Times are nanoseconds of a clock that never runs backwards. Balances are unbounded integers
    where the source has 32 bits: only a range that is silent for decades could tell them apart. */
module EventLimiters {
  import opened Bits

  const TOKENS_PER_SEC: nat := 2
  const TOKENS_MAX: int := 50
  const TOKEN_COST_CONN: int := 1
  const TOKEN_MAX_MINUS: int := -120
  const OVER_LIMIT_LIMIT: nat := 15
  const NANOS_PER_SEC: nat := 1_000_000_000

  datatype IPRangeLimit = IPRangeLimit(tokens: int, overLimitRequests: nat, last: nat)

  // The entry made for a range when it is first seen. Whatever time passes until the clock is
  // read again, its balance cannot rise any more.
  function Fresh(now: nat): IPRangeLimit {
    IPRangeLimit(TOKENS_MAX, 0, now)
  }

  // What every entry satisfies between calls.
  predicate Valid(s: IPRangeLimit) {
    && s.tokens <= TOKENS_MAX
    && s.tokens >= TOKEN_MAX_MINUS - s.overLimitRequests
    && s.overLimitRequests <= OVER_LIMIT_LIMIT
  }

  // ---- one request ----

  function Seconds(from: nat, to: nat): nat
    requires from <= to
  {
    (to - from) / NANOS_PER_SEC
  }

  // The balance when the whole seconds since the last request have been credited.
  function Refilled(s: IPRangeLimit, now: nat): int
    requires s.last <= now
  {
    var sum := s.tokens + TOKENS_PER_SEC * Seconds(s.last, now);
    if sum < TOKENS_MAX then sum else TOKENS_MAX
  }

  predicate Allows(s: IPRangeLimit, now: nat)
    requires s.last <= now
  {
    Refilled(s, now) >= TOKEN_COST_CONN
  }

  // A request that draws a penalty.
  predicate Penalised(s: IPRangeLimit, now: nat)
    requires s.last <= now
  {
    !Allows(s, now) && s.overLimitRequests >= OVER_LIMIT_LIMIT
  }

  function After(s: IPRangeLimit, now: nat): IPRangeLimit
    requires s.last <= now
  {
    var tokens := Refilled(s, now) - TOKEN_COST_CONN;
    if tokens >= 0 then IPRangeLimit(tokens, s.overLimitRequests, now)
    else if s.overLimitRequests + 1 > OVER_LIMIT_LIMIT then IPRangeLimit(TOKEN_MAX_MINUS, 0, now)
    else IPRangeLimit(tokens, s.overLimitRequests + 1, now)
  }

  // ---- runs of one range ----

  // Request times do not decrease, from `last` on.
  predicate Ordered(last: nat, times: seq<nat>) {
    forall i, j :: 0 <= i <= j < |times| ==> last <= times[i] <= times[j]
  }

  // The entry after the first n requests.
  function Run(s: IPRangeLimit, times: seq<nat>, n: nat): (t: IPRangeLimit)
    requires n <= |times| && Ordered(s.last, times)
    ensures t.last == if n == 0 then s.last else times[n - 1]
  {
    if n == 0 then s else After(Run(s, times, n - 1), times[n - 1])
  }

  // Whether request k is allowed.
  predicate AllowedAt(s: IPRangeLimit, times: seq<nat>, k: nat)
    requires k < |times| && Ordered(s.last, times)
  {
    Allows(Run(s, times, k), times[k])
  }

  // How many of the requests i .. j-1 are allowed.
  function AllowedIn(s: IPRangeLimit, times: seq<nat>, i: nat, j: nat): nat
    requires i <= j <= |times| && Ordered(s.last, times)
    decreases j
  {
    if i == j then 0 else AllowedIn(s, times, i, j - 1) + (if AllowedAt(s, times, j - 1) then 1 else 0)
  }

  // The whole seconds of the gaps between the requests i .. j-1, gap by gap.
  function WholeSeconds(times: seq<nat>, i: nat, j: nat): nat
    requires i < j <= |times| && Ordered(0, times)
    decreases j
  {
    if j == i + 1 then 0 else WholeSeconds(times, i, j - 1) + Seconds(times[j - 2], times[j - 1])
  }

  /** Between calls the balance lies between -120 less the refusals counted so far and 50. */
  lemma {:induction false} StaysValid(s: IPRangeLimit, times: seq<nat>, n: nat)
    requires n <= |times| && Ordered(s.last, times) && Valid(s)
    ensures Valid(Run(s, times, n))
  {
    if n > 0 {
      StaysValid(s, times, n - 1);
    }
  }

  function Positive(x: int): nat {
    if x > 0 then x else 0
  }

  lemma {:induction false} OrderedFromZero(last: nat, times: seq<nat>)
    requires Ordered(last, times)
    ensures Ordered(0, times)
  {
  }

  // What has been allowed and what is left never exceed what was there and what was credited,
  // gap by gap. A penalty that raises the balance leaves it negative.
  lemma {:induction false} Credit(s: IPRangeLimit, times: seq<nat>, i: nat, j: nat)
    requires i < j <= |times| && Ordered(s.last, times) && Valid(s)
    ensures Ordered(0, times)
    ensures AllowedIn(s, times, i, j) + Positive(Run(s, times, j).tokens)
         <= TOKENS_MAX + TOKENS_PER_SEC * WholeSeconds(times, i, j)
    decreases j
  {
    OrderedFromZero(s.last, times);
    StaysValid(s, times, j - 1);
    if j > i + 1 {
      Credit(s, times, i, j - 1);
    }
  }

  lemma {:induction false} SecondsAdd(a: nat, b: nat, c: nat, w: nat)
    requires a <= b <= c && w * NANOS_PER_SEC <= b - a
    ensures (w + Seconds(b, c)) * NANOS_PER_SEC <= c - a
  {
  }

  lemma {:induction false} WholeSecondsFit(times: seq<nat>, i: nat, j: nat)
    requires i < j <= |times| && Ordered(0, times)
    ensures WholeSeconds(times, i, j) * NANOS_PER_SEC <= times[j - 1] - times[i]
    decreases j
  {
    if j > i + 1 {
      WholeSecondsFit(times, i, j - 1);
      SecondsAdd(times[i], times[j - 2], times[j - 1], WholeSeconds(times, i, j - 1));
    }
  }

  /** Rate bound: however the requests are spaced, those of any window of T seconds contain at
      most 50 + 2T allowed ones. */
  lemma {:induction false} WindowBound(s: IPRangeLimit, times: seq<nat>, i: nat, j: nat, seconds: nat)
    requires i <= j <= |times| && Ordered(s.last, times) && Valid(s)
    requires i < j ==> times[j - 1] - times[i] <= seconds * 1_000_000_000
    ensures AllowedIn(s, times, i, j) <= 50 + 2 * seconds
  {
    if i < j {
      Credit(s, times, i, j);
      WholeSecondsFit(times, i, j);
    }
  }

  /** Fractions of a second are lost: requests less than a second apart never earn a token, so at
      most 50 of them are ever allowed. */
  lemma {:induction false} FastRequestsStarve(s: IPRangeLimit, times: seq<nat>, i: nat, j: nat)
    requires i <= j <= |times| && Ordered(s.last, times) && Valid(s)
    requires forall k :: i < k < j ==> times[k] - times[k - 1] < 1_000_000_000
    ensures AllowedIn(s, times, i, j) <= 50
  {
    if i < j {
      Credit(s, times, i, j);
      NoWholeSeconds(times, i, j);
    }
  }

  lemma {:induction false} NoWholeSeconds(times: seq<nat>, i: nat, j: nat)
    requires i < j <= |times| && Ordered(0, times)
    requires forall k :: i < k < j ==> times[k] - times[k - 1] < NANOS_PER_SEC
    ensures WholeSeconds(times, i, j) == 0
    decreases j
  {
    if j > i + 1 {
      NoWholeSeconds(times, i, j - 1);
    }
  }

  // ---- what is allowed at least ----

  // Each request costs at most one token, so the balance lasts for as many.
  lemma {:induction false} Lasting(s: IPRangeLimit, times: seq<nat>, k: nat)
    requires k <= |times| && Ordered(s.last, times) && Valid(s) && k <= s.tokens
    ensures Run(s, times, k).tokens >= s.tokens - k && Run(s, times, k).overLimitRequests == s.overLimitRequests
    ensures forall n :: 0 <= n < k ==> AllowedAt(s, times, n)
  {
    if k > 0 {
      Lasting(s, times, k - 1);
      StaysValid(s, times, k - 1);
    }
  }

  /** Burst law: a range with t tokens has its next t requests allowed, however close together. */
  lemma {:induction false} BurstAllowed(s: IPRangeLimit, times: seq<nat>, k: nat)
    requires k < |times| && Ordered(s.last, times) && Valid(s) && k < s.tokens
    ensures AllowedAt(s, times, k)
  {
    Lasting(s, times, k + 1);
  }

  /** So the first 50 requests of a new range are. */
  lemma {:induction false} FirstFiftyAllowed(now: nat, times: seq<nat>, k: nat)
    requires k < |times| && k < 50 && Ordered(now, times)
    ensures AllowedAt(Fresh(now), times, k)
  {
    BurstAllowed(Fresh(now), times, k);
  }

  // Neither the maximum nor a penalty comes into play.
  predicate Unclipped(s: IPRangeLimit, now: nat)
    requires s.last <= now
  {
    !Penalised(s, now) && s.tokens + 2 * ((now - s.last) / 1_000_000_000) <= 50
  }

  predicate AllUnclipped(s: IPRangeLimit, times: seq<nat>, n: nat)
    requires n <= |times| && Ordered(s.last, times)
  {
    n == 0 || (AllUnclipped(s, times, n - 1) && Unclipped(Run(s, times, n - 1), times[n - 1]))
  }

  // The whole seconds before each of the first n requests together.
  function Credited(s: IPRangeLimit, times: seq<nat>, n: nat): nat
    requires n <= |times| && Ordered(s.last, times)
  {
    if n == 0 then 0
    else Credited(s, times, n - 1) + (times[n - 1] - Run(s, times, n - 1).last) / 1_000_000_000
  }

  lemma {:induction false} BalanceStep(s: IPRangeLimit, now: nat)
    requires s.last <= now && Unclipped(s, now)
    ensures After(s, now).tokens == s.tokens + 2 * ((now - s.last) / 1_000_000_000) - 1
  {
  }

  /** While the balance is never full and no penalty is drawn, nothing is lost or given away: it is
      what was there, two tokens for each whole second, less one for each request, refused ones
      too. */
  lemma {:induction false} ExactBalance(s: IPRangeLimit, times: seq<nat>, n: nat)
    requires n <= |times| && Ordered(s.last, times) && AllUnclipped(s, times, n)
    ensures Run(s, times, n).tokens == s.tokens + 2 * Credited(s, times, n) - n
  {
    if n > 0 {
      ExactBalance(s, times, n - 1);
      BalanceStep(Run(s, times, n - 1), times[n - 1]);
    }
  }

  /** A request draws a penalty exactly if it is refused and is the sixteenth since the last one;
      then the balance is -120. */
  lemma {:induction false} PenaltyExactly(s: IPRangeLimit, times: seq<nat>, k: nat)
    requires k < |times| && Ordered(s.last, times) && Valid(s)
    ensures var before, after := Run(s, times, k), Run(s, times, k + 1);
      && (!AllowedAt(s, times, k) && before.overLimitRequests == 15 ==> after.tokens == -120 && after.overLimitRequests == 0)
      && (!AllowedAt(s, times, k) && before.overLimitRequests < 15 ==> after.overLimitRequests == before.overLimitRequests + 1)
      && (AllowedAt(s, times, k) ==> after.tokens >= 0 && after.overLimitRequests == before.overLimitRequests)
  {
    StaysValid(s, times, k);
  }

  /** A range whose requests are at least a second apart is never refused. */
  lemma {:induction false} SlowRequestsPass(now: nat, times: seq<nat>, k: nat)
    requires k < |times| && Ordered(now, times)
    requires forall i :: 0 < i < |times| ==> times[i] - times[i - 1] >= 1_000_000_000
    ensures AllowedAt(Fresh(now), times, k) && Run(Fresh(now), times, k + 1).tokens == 49
  {
    if k > 0 {
      SlowRequestsPass(now, times, k - 1);
      assert times[k] - times[k - 1] >= 1_000_000_000;
    }
  }

  // ---- penalties ----

  // After a penalty the balance is at most -120 plus what was credited since, even when later
  // penalties raise it.
  lemma {:induction false} Debt(s: IPRangeLimit, times: seq<nat>, p: nat, n: nat)
    requires p < n <= |times| && Ordered(s.last, times)
    requires Penalised(Run(s, times, p), times[p])
    ensures Ordered(0, times)
    ensures Run(s, times, n).tokens <= TOKEN_MAX_MINUS + TOKENS_PER_SEC * WholeSeconds(times, p, n)
    decreases n
  {
    OrderedFromZero(s.last, times);
    if n > p + 1 {
      Debt(s, times, p, n - 1);
    }
  }

  /** Nothing is allowed within 60 seconds of a penalty, nor before 61 of them are over. */
  lemma {:induction false} PenaltyHolds(s: IPRangeLimit, times: seq<nat>, p: nat, k: nat)
    requires p < k < |times| && Ordered(s.last, times)
    requires Penalised(Run(s, times, p), times[p])
    requires times[k] - times[p] < 61_000_000_000
    ensures !AllowedAt(s, times, k)
  {
    Debt(s, times, p, k);
    WholeSecondsFit(times, p, k + 1);
  }

  /** The next request after a penalty is allowed exactly when 61 whole seconds have passed. */
  lemma {:induction false} PenaltyEnds(s: IPRangeLimit, times: seq<nat>, p: nat)
    requires p + 1 < |times| && Ordered(s.last, times)
    requires Penalised(Run(s, times, p), times[p])
    ensures AllowedAt(s, times, p + 1) <==> times[p + 1] - times[p] >= 61_000_000_000
  {
    assert Run(s, times, p + 1) == IPRangeLimit(TOKEN_MAX_MINUS, 0, times[p]);
  }

  /** Allowed requests in between do not clear the count of refusals: without a penalty at most 15
      requests are refused altogether. */
  lemma {:induction false} RefusalsAddUp(s: IPRangeLimit, times: seq<nat>, n: nat)
    requires n <= |times| && Ordered(s.last, times) && Valid(s)
    requires forall k: nat :: k < n ==> !Penalised(Run(s, times, k), times[k])
    ensures Run(s, times, n).overLimitRequests == s.overLimitRequests + (n - AllowedIn(s, times, 0, n))
    ensures n - AllowedIn(s, times, 0, n) <= 15 - s.overLimitRequests
    decreases n
  {
    if n > 0 {
      RefusalsAddUp(s, times, n - 1);
      StaysValid(s, times, n - 1);
    }
  }

  // ---- all ranges ----

  // The first four bytes of an address, read as a little-endian word whose lowest byte is cleared.
  function RangeOf(address: seq<Byte>): nat
    requires |address| >= 4
  {
    var b1: nat, b2: nat, b3: nat := address[1], address[2], address[3];
    b1 * 256 + b2 * 65536 + b3 * 16777216
  }

  lemma {:induction false} LowByte(b: nat, x: nat, c: nat, y: nat)
    requires b < 256 && c < 256 && b + 256 * x == c + 256 * y
    ensures b == c && x == y
  {
  }

  /** On a little-endian machine the byte cleared is the first one of the address: addresses share
      an entry exactly when they agree in the other three. */
  lemma {:induction false} SameRange(a: seq<Byte>, b: seq<Byte>)
    requires |a| >= 4 && |b| >= 4
    ensures RangeOf(a) == RangeOf(b) <==> a[1] == b[1] && a[2] == b[2] && a[3] == b[3]
  {
    if RangeOf(a) == RangeOf(b) {
      var a1: nat, a2: nat, a3: nat := a[1], a[2], a[3];
      var b1: nat, b2: nat, b3: nat := b[1], b[2], b[3];
      LowByte(a1, a2 + 256 * a3, b1, b2 + 256 * b3);
      LowByte(a2, a3, b2, b3);
    }
  }

  /** So two addresses of one /24 network need not share an entry. */
  lemma {:induction false} SubnetIsSplit()
    ensures RangeOf([10, 0, 0, 1]) != RangeOf([10, 0, 0, 2])
    ensures RangeOf([10, 0, 0, 1]) == RangeOf([11, 0, 0, 1])
  {
    SameRange([10, 0, 0, 1], [10, 0, 0, 2]);
    SameRange([10, 0, 0, 1], [11, 0, 0, 1]);
  }

  datatype Request = Request(address: seq<Byte>, now: nat)

  function EntryOf(m: map<nat, IPRangeLimit>, range: nat, now: nat): IPRangeLimit {
    if range in m then m[range] else Fresh(now)
  }

  // One request against the map.
  function Served(m: map<nat, IPRangeLimit>, r: Request): map<nat, IPRangeLimit>
    requires |r.address| >= 4 && EntryOf(m, RangeOf(r.address), r.now).last <= r.now
  {
    m[RangeOf(r.address) := After(EntryOf(m, RangeOf(r.address), r.now), r.now)]
  }

  predicate InOrder(rs: seq<Request>) {
    && (forall i :: 0 <= i < |rs| ==> |rs[i].address| >= 4)
    && (forall i, j :: 0 <= i <= j < |rs| ==> rs[i].now <= rs[j].now)
  }

  // The map after a run of requests of all ranges.
  function ServedAll(rs: seq<Request>): (m: map<nat, IPRangeLimit>)
    requires InOrder(rs)
    ensures forall range :: range in m ==> rs != [] && m[range].last <= rs[|rs| - 1].now
  {
    if rs == [] then map[] else Served(ServedAll(rs[..|rs| - 1]), rs[|rs| - 1])
  }

  // The times of the requests of one range.
  function TimesOf(rs: seq<Request>, range: nat): (times: seq<nat>)
    requires InOrder(rs)
    ensures forall i :: 0 <= i < |times| ==> rs != [] && times[i] <= rs[|rs| - 1].now
  {
    if rs == [] then []
    else
      var r := rs[|rs| - 1];
      TimesOf(rs[..|rs| - 1], range) + (if RangeOf(r.address) == range then [r.now] else [])
  }

  lemma {:induction false} TimesOrdered(rs: seq<Request>, range: nat)
    requires InOrder(rs)
    ensures Ordered(0, TimesOf(rs, range))
  {
    if rs != [] {
      TimesOrdered(rs[..|rs| - 1], range);
    }
  }

  lemma {:induction false} RunPrefix(s: IPRangeLimit, times: seq<nat>, more: seq<nat>, n: nat)
    requires n <= |times| && Ordered(s.last, times + more)
    ensures Ordered(s.last, times) && Run(s, times + more, n) == Run(s, times, n)
  {
    assert forall i :: 0 <= i < |times| ==> (times + more)[i] == times[i];
    if n > 0 {
      RunPrefix(s, times, more, n - 1);
    }
  }

  lemma {:induction false} OrderedFromFirst(times: seq<nat>)
    requires Ordered(0, times) && times != []
    ensures Ordered(times[0], times)
  {
  }

  /** Ranges do not disturb each other: whatever requests of other ranges come in between, the
      entry of a range is what its own requests make of a fresh one. */
  lemma {:induction false} RangesIndependent(rs: seq<Request>, range: nat)
    requires InOrder(rs)
    ensures var times := TimesOf(rs, range);
      if times == [] then range !in ServedAll(rs)
      else Ordered(times[0], times) && range in ServedAll(rs) && ServedAll(rs)[range] == Run(Fresh(times[0]), times, |times|)
  {
    TimesOrdered(rs, range);
    if rs != [] {
      var front, r := rs[..|rs| - 1], rs[|rs| - 1];
      RangesIndependent(front, range);
      var before, times := TimesOf(front, range), TimesOf(rs, range);
      if times != [] {
        OrderedFromFirst(times);
        if RangeOf(r.address) == range {
          RunPrefix(Fresh(times[0]), before, [r.now], |before|);
          assert before != [] ==> times[0] == before[0];
          assert EntryOf(ServedAll(front), range, r.now) == Run(Fresh(times[0]), times, |before|);
        } else {
          assert times == before;
        }
      }
    }
  }

  class EventLimiter {
    var ipStatusMap: map<nat, IPRangeLimit>

    constructor ()
      ensures ipStatusMap == map[]
    {
      ipStatusMap := map[];
    }

    /** allowRequest */
    method AllowRequest(address: seq<Byte>, now: nat) returns (allowed: bool)
      requires |address| >= 4 && EntryOf(ipStatusMap, RangeOf(address), now).last <= now
      modifies this
      ensures var entry := old(EntryOf(ipStatusMap, RangeOf(address), now));
        && allowed == Allows(entry, now)
        && ipStatusMap == old(Served(ipStatusMap, Request(address, now)))
    {
      var ipNum := RangeOf(address);
      if ipNum !in ipStatusMap {
        ipStatusMap := ipStatusMap[ipNum := Fresh(now)];
      }
      var ipStatus := ipStatusMap[ipNum];
      var diff := now - ipStatus.last;
      var addTokens := TOKENS_PER_SEC * (diff / NANOS_PER_SEC);
      var tokens := if TOKENS_MAX < ipStatus.tokens + addTokens then TOKENS_MAX else ipStatus.tokens + addTokens;
      tokens := tokens - TOKEN_COST_CONN;
      var overLimitRequests := ipStatus.overLimitRequests;
      allowed := true;
      if tokens < 0 {
        overLimitRequests := overLimitRequests + 1;
        if overLimitRequests > OVER_LIMIT_LIMIT {
          overLimitRequests := 0;
          tokens := TOKEN_MAX_MINUS;
        }
        allowed := false;
      }
      ipStatusMap := ipStatusMap[ipNum := IPRangeLimit(tokens, overLimitRequests, now)];
    }

  }
}
