/** Per-minute request limits of the crash endpoint: one counter per project and one per address. */
module RateLimit {
  import opened Common

  const BUCKET_SECONDS := 60
  const EXPIRY_SECONDS := 120
  const PURGE_BATCH := 128

  /** The address subject stands for the keyed hash of the address in its bucket. */
  datatype Subject = WholeProject | Address(ip: string)

  datatype CounterKey = CounterKey(project: string, subject: Subject, bucket: int)

  type Counters = map<CounterKey, int>

  datatype Limits = Limits(project: nat, address: nat)

  /** `purge` are the expired rows this transaction deletes: at most a batch, none that is locked. */
  datatype Request = Request(now: int, project: string, ip: string, purge: set<CounterKey>)

  datatype Reply = Admitted(limit: nat, remaining: nat) | RateLimited(limit: nat)

  function Bucket(now: int): int {
    now / BUCKET_SECONDS * BUCKET_SECONDS
  }

  function Count(counters: Counters, key: CounterKey): int {
    if key in counters then counters[key] else 0
  }

  function ProjectKey(r: Request): CounterKey {
    CounterKey(r.project, WholeProject, Bucket(r.now))
  }

  function AddressKey(r: Request): CounterKey {
    CounterKey(r.project, Address(r.ip), Bucket(r.now))
  }

  function Bump(counters: Counters, key: CounterKey): Counters {
    counters[key := Count(counters, key) + 1]
  }

  predicate PurgeOk(counters: Counters, r: Request) {
    |r.purge| <= PURGE_BATCH && forall k :: k in r.purge ==> k in counters && k.bucket + EXPIRY_SECONDS <= r.now
  }

  predicate Admits(limits: Limits, counters: Counters, r: Request) {
    Count(counters, ProjectKey(r)) < limits.project && Count(counters, AddressKey(r)) < limits.address
  }

  function After(limits: Limits, counters: Counters, r: Request): Counters {
    if Admits(limits, counters, r) then Bump(Bump(counters - r.purge, ProjectKey(r)), AddressKey(r)) else counters
  }

  function Remaining(limits: Limits, counters: Counters, r: Request): int {
    MinInt(limits.project - Count(counters, ProjectKey(r)), limits.address - Count(counters, AddressKey(r)))
  }

  // ---------- whole histories ----------

  function Init(history: seq<Request>): seq<Request>
    requires history != []
  {
    history[..|history| - 1]
  }

  function Last(history: seq<Request>): Request
    requires history != []
  {
    history[|history| - 1]
  }

  function CountersAfter(limits: Limits, history: seq<Request>): Counters {
    if history == [] then map[] else After(limits, CountersAfter(limits, Init(history)), Last(history))
  }

  ghost predicate ValidHistory(limits: Limits, history: seq<Request>) {
    history == [] ||
    (ValidHistory(limits, Init(history)) && PurgeOk(CountersAfter(limits, Init(history)), Last(history))
     && (|history| >= 2 ==> history[|history| - 2].now <= Last(history).now))
  }

  /** How many requests of this project, bucket and, if given, address were let through. */
  function AdmittedCount(limits: Limits, history: seq<Request>, key: CounterKey): nat {
    if history == [] then 0
    else
      var r := Last(history);
      AdmittedCount(limits, Init(history), key)
      + if Admits(limits, CountersAfter(limits, Init(history)), r) && (key == ProjectKey(r) || key == AddressKey(r))
        then 1 else 0
  }

  function LimitOf(limits: Limits, key: CounterKey): nat {
    if key.subject == WholeProject then limits.project else limits.address
  }

  /** In every bucket that can still be counted, each counter equals the requests admitted; in every
      bucket ever, no project and no address had more requests admitted than its limit. */
  lemma {:induction false} CountersCountAdmissions(limits: Limits, history: seq<Request>, key: CounterKey)
    requires ValidHistory(limits, history)
    ensures AdmittedCount(limits, history, key) <= LimitOf(limits, key)
    ensures history != [] && Last(history).now < key.bucket + EXPIRY_SECONDS ==>
              Count(CountersAfter(limits, history), key) == AdmittedCount(limits, history, key)
    ensures history == [] ==> Count(CountersAfter(limits, history), key) == 0
  {
    if history != [] {
      CountersCountAdmissions(limits, Init(history), key);
      var r := Last(history);
      if Init(history) != [] {
        assert Last(Init(history)) == history[|history| - 2];
      }
    }
  }

  // ---------- minutes ----------

  predicate InMinute(r: Request, minute: int) {
    60 * minute <= r.now < 60 * minute + 60
  }

  /** Two requests share the counter of their project exactly when they fall into one minute. */
  lemma CountersAreByMinute(a: Request, b: Request)
    ensures ProjectKey(a) == ProjectKey(b) <==> a.project == b.project && a.now / 60 == b.now / 60
    ensures AddressKey(a) == AddressKey(b) <==> a.project == b.project && a.ip == b.ip && a.now / 60 == b.now / 60
    ensures InMinute(a, a.now / 60)
    ensures ProjectKey(a) != AddressKey(b)
  {
  }

  /** The requests of a project, and of an address if one is given, that were let through in a minute. */
  function AdmittedIn(limits: Limits, history: seq<Request>, project: string, ip: Option<string>, minute: int): nat {
    if history == [] then 0
    else
      var r := Last(history);
      AdmittedIn(limits, Init(history), project, ip, minute)
      + if Admits(limits, CountersAfter(limits, Init(history)), r) && r.project == project
           && (ip.None? || ip.value == r.ip) && InMinute(r, minute)
        then 1 else 0
  }

  function MinuteKey(project: string, ip: Option<string>, minute: int): CounterKey {
    CounterKey(project, if ip.Some? then Address(ip.value) else WholeProject, 60 * minute)
  }

  lemma {:induction false} AdmittedInIsAdmittedCount(limits: Limits, history: seq<Request>, project: string,
                                                     ip: Option<string>, minute: int)
    ensures AdmittedIn(limits, history, project, ip, minute)
         == AdmittedCount(limits, history, MinuteKey(project, ip, minute))
    decreases |history|
  {
    if history != [] {
      AdmittedInIsAdmittedCount(limits, Init(history), project, ip, minute);
      var r := Last(history);
      assert Bucket(r.now) == 60 * minute <==> InMinute(r, minute);
    }
  }

  /** Over every history no minute lets more requests of a project or of an address through than the limits say. */
  lemma MinutesStayWithinLimits(limits: Limits, history: seq<Request>, project: string, ip: string, minute: int)
    requires ValidHistory(limits, history)
    ensures AdmittedIn(limits, history, project, None, minute) <= limits.project
    ensures AdmittedIn(limits, history, project, Some(ip), minute) <= limits.address
  {
    AdmittedInIsAdmittedCount(limits, history, project, None, minute);
    AdmittedInIsAdmittedCount(limits, history, project, Some(ip), minute);
    CountersCountAdmissions(limits, history, MinuteKey(project, None, minute));
    CountersCountAdmissions(limits, history, MinuteKey(project, Some(ip), minute));
  }

  /** The counters a request meets are the admissions of its minute so far. */
  lemma CounterIsTheMinute(limits: Limits, history: seq<Request>, r: Request, ip: Option<string>)
    requires ValidHistory(limits, history) && (history != [] ==> Last(history).now <= r.now)
    ensures Count(CountersAfter(limits, history), MinuteKey(r.project, ip, r.now / 60))
         == AdmittedIn(limits, history, r.project, ip, r.now / 60)
  {
    AdmittedInIsAdmittedCount(limits, history, r.project, ip, r.now / 60);
    CountersCountAdmissions(limits, history, MinuteKey(r.project, ip, r.now / 60));
  }

  /** A request is refused exactly if its minute has already let through the limit of its project or of its address. */
  lemma RefusedExactlyAtTheLimit(limits: Limits, history: seq<Request>, r: Request)
    requires ValidHistory(limits, history) && (history != [] ==> Last(history).now <= r.now)
    ensures Admits(limits, CountersAfter(limits, history), r) <==>
              AdmittedIn(limits, history, r.project, None, r.now / 60) < limits.project
              && AdmittedIn(limits, history, r.project, Some(r.ip), r.now / 60) < limits.address
  {
    CounterIsTheMinute(limits, history, r, None);
    CounterIsTheMinute(limits, history, r, Some(r.ip));
    assert ProjectKey(r) == MinuteKey(r.project, None, r.now / 60);
    assert AddressKey(r) == MinuteKey(r.project, Some(r.ip), r.now / 60);
  }

  lemma OneMoreRequest(limits: Limits, history: seq<Request>, r: Request)
    requires ValidHistory(limits, history) && (history != [] ==> Last(history).now <= r.now)
    requires PurgeOk(CountersAfter(limits, history), r)
    ensures ValidHistory(limits, history + [r]) && Last(history + [r]) == r
    ensures CountersAfter(limits, history + [r]) == After(limits, CountersAfter(limits, history), r)
  {
    assert Init(history + [r]) == history && Last(history + [r]) == r;
    assert history != [] ==> (history + [r])[|history + [r]| - 2] == Last(history);
  }

  lemma RequestIsAnswered(limits: Limits, history: seq<Request>, r: Request)
    requires ValidHistory(limits, history) && (history != [] ==> Last(history).now <= r.now)
    requires PurgeOk(CountersAfter(limits, history), r)
    ensures var counters, longer := CountersAfter(limits, history), history + [r];
            && ValidHistory(limits, longer) && CountersAfter(limits, longer) == After(limits, counters, r)
            && (Admits(limits, counters, r) <==>
                  AdmittedIn(limits, history, r.project, None, r.now / 60) < limits.project
                  && AdmittedIn(limits, history, r.project, Some(r.ip), r.now / 60) < limits.address)
            && Remaining(limits, After(limits, counters, r), r) ==
                 MinInt(limits.project - AdmittedIn(limits, longer, r.project, None, r.now / 60),
                        limits.address - AdmittedIn(limits, longer, r.project, Some(r.ip), r.now / 60))
  {
    RefusedExactlyAtTheLimit(limits, history, r);
    OneMoreRequest(limits, history, r);
    CounterIsTheMinute(limits, history + [r], r, None);
    CounterIsTheMinute(limits, history + [r], r, Some(r.ip));
    assert ProjectKey(r) == MinuteKey(r.project, None, r.now / 60);
    assert AddressKey(r) == MinuteKey(r.project, Some(r.ip), r.now / 60);
  }

  ghost function AddressCounters(counters: Counters, project: string, bucket: int): Counters {
    map k | k in counters && k.project == project && k.bucket == bucket && k.subject.Address? :: counters[k]
  }

  /** A rejected request leaves every counter as it was, and an admitted one raises its two by one. */
  lemma OnlyAdmittedRequestsCount(limits: Limits, counters: Counters, r: Request, key: CounterKey)
    requires PurgeOk(counters, r) && key !in r.purge
    ensures Count(After(limits, counters, r), key) ==
              Count(counters, key)
              + if Admits(limits, counters, r) && (key == ProjectKey(r) || key == AddressKey(r)) then 1 else 0
  {
  }

  lemma AdmissionBumpsOneAddress(limits: Limits, counters: Counters, r: Request, project: string, bucket: int)
    requires PurgeOk(counters, r) && r.now < bucket + EXPIRY_SECONDS && Admits(limits, counters, r)
    ensures AddressCounters(After(limits, counters, r), project, bucket) ==
            if r.project == project && Bucket(r.now) == bucket
            then Bump(AddressCounters(counters, project, bucket), AddressKey(r))
            else AddressCounters(counters, project, bucket)
  {
    var before := AddressCounters(counters, project, bucket);
    var after := After(limits, counters, r);
    forall k: CounterKey | k.project == project && k.bucket == bucket && k.subject.Address?
      ensures k in after <==> k in before || k == AddressKey(r)
      ensures k in after ==> after[k] == Count(before, k) + if k == AddressKey(r) then 1 else 0
    {
      OnlyAdmittedRequestsCount(limits, counters, r, k);
    }
  }

  lemma AdmissionKeepsTheSum(limits: Limits, counters: Counters, r: Request, project: string, bucket: int)
    requires PurgeOk(counters, r) && r.now < bucket + EXPIRY_SECONDS && Admits(limits, counters, r)
    ensures Sum(AddressCounters(After(limits, counters, r), project, bucket))
            == Sum(AddressCounters(counters, project, bucket))
            + if r.project == project && Bucket(r.now) == bucket then 1 else 0
  {
    var before := AddressCounters(counters, project, bucket);
    AdmissionBumpsOneAddress(limits, counters, r, project, bucket);
    SumOfUpdate(before, AddressKey(r), Count(before, AddressKey(r)) + 1);
  }

  /** The address counters of a live bucket add up to its project counter. */
  lemma {:induction false} AddressCountersSumToProject(limits: Limits, history: seq<Request>, project: string,
                                                       bucket: int)
    requires ValidHistory(limits, history)
    requires history != [] ==> Last(history).now < bucket + EXPIRY_SECONDS
    ensures Sum(AddressCounters(CountersAfter(limits, history), project, bucket)) ==
            Count(CountersAfter(limits, history), CounterKey(project, WholeProject, bucket))
  {
    if history == [] {
      assert AddressCounters(map[], project, bucket) == map[];
    } else {
      var r := Last(history);
      var before := CountersAfter(limits, Init(history));
      if Init(history) != [] {
        assert Last(Init(history)) == history[|history| - 2];
      }
      AddressCountersSumToProject(limits, Init(history), project, bucket);
      OnlyAdmittedRequestsCount(limits, before, r, CounterKey(project, WholeProject, bucket));
      if Admits(limits, before, r) {
        AdmissionKeepsTheSum(limits, before, r, project, bucket);
      }
    }
  }

  ghost predicate Burst(limits: Limits, counters: Counters, first: Request, burst: seq<Request>)
    decreases |burst|
  {
    burst == [] ||
    (burst[0].project == first.project && burst[0].ip == first.ip && burst[0].now / 60 == first.now / 60
     && PurgeOk(counters, burst[0])
     && Burst(limits, After(limits, counters, burst[0]), first, burst[1..]))
  }

  function AdmittedOf(limits: Limits, counters: Counters, burst: seq<Request>): nat
    decreases |burst|
  {
    if burst == [] then 0
    else
      (if Admits(limits, counters, burst[0]) then 1 else 0)
      + AdmittedOf(limits, After(limits, counters, burst[0]), burst[1..])
  }

  /** The advertised `remaining` is exact: of the next requests this address alone sends in the
      same minute, precisely the first `remaining` are admitted. */
  lemma {:induction false} RemainingIsExact(limits: Limits, counters: Counters, first: Request, burst: seq<Request>)
    requires Burst(limits, counters, first, burst)
    requires 0 <= Remaining(limits, counters, first)
    ensures AdmittedOf(limits, counters, burst) == MinInt(|burst|, Remaining(limits, counters, first))
    decreases |burst|
  {
    if burst != [] {
      var r := burst[0];
      assert ProjectKey(r) !in r.purge && AddressKey(r) !in r.purge;
      var after := After(limits, counters, r);
      RemainingIsExact(limits, after, first, burst[1..]);
    }
  }

  class RateLimiter {
    const limits: Limits
    var counters: Counters
    ghost var history: seq<Request>

    constructor (limits: Limits)
      ensures this.limits == limits && counters == map[] && Tracked()
    {
      this.limits := limits;
      counters := map[];
      history := [];
    }

    /** The counters are those of a history of requests, in the order of their times. */
    ghost predicate Tracked()
      reads this
    {
      ValidHistory(limits, history) && counters == CountersAfter(limits, history)
    }

    /** The requests of this project, and of this address if one is given, let through in the minute of `r` so far. */
    ghost function InMinuteOf(r: Request, ip: Option<string>): nat
      reads this
    {
      AdmittedIn(limits, history, r.project, ip, r.now / 60)
    }

    /** Expired rows that no other transaction holds: at most a batch, and all of them when there are fewer. */
    method SelectExpired(now: int, locked: set<CounterKey>) returns (purge: set<CounterKey>)
      ensures |purge| <= 128
      ensures forall k :: k in purge ==> k in counters && k !in locked && k.bucket + 120 <= now
      ensures |purge| < 128 ==>
                forall k :: k in counters && k !in locked && k.bucket + 120 <= now ==> k in purge
      ensures forall project, ip :: PurgeOk(counters, Request(now, project, ip, purge))
    {
      var rest := set k | k in counters && k !in locked && k.bucket + EXPIRY_SECONDS <= now;
      purge := {};
      while rest != {} && |purge| < PURGE_BATCH
        invariant |purge| <= 128 && rest !! purge
        invariant forall k :: k in purge + rest <==> k in counters && k !in locked && k.bucket + 120 <= now
        decreases rest
      {
        var k :| k in rest;
        purge := purge + {k};
        rest := rest - {k};
      }
    }

    method IncrementRate(key: CounterKey) returns (count: int)
      modifies this`counters
      ensures counters == Bump(old(counters), key) && count == Count(counters, key)
    {
      count := if key in counters then counters[key] + 1 else 1;
      counters := counters[key := count];
    }

    /** One rate-limit transaction; going over either limit rolls every change back. After any history it is refused
        exactly if the minute has already let through the limit of the project or of the address, and otherwise says
        how many more that minute will. */
    method ApplyRateLimits(r: Request) returns (reply: Reply)
      requires PurgeOk(counters, r)
      modifies this
      ensures counters == After(limits, old(counters), r)
      ensures reply.Admitted? <==> Admits(limits, old(counters), r)
      ensures reply.Admitted? ==> reply.remaining == Remaining(limits, counters, r)
      ensures reply.limit == MinInt(limits.project, limits.address)
      ensures history == old(history) + [r]
      ensures old(Tracked() && (history != [] ==> Last(history).now <= r.now)) ==>
                && Tracked()
                && (reply.Admitted? <==>
                      old(InMinuteOf(r, None)) < limits.project && old(InMinuteOf(r, Some(r.ip))) < limits.address)
                && (reply.Admitted? ==>
                      reply.remaining == MinInt(limits.project - InMinuteOf(r, None),
                                                limits.address - InMinuteOf(r, Some(r.ip))))
    {
      if Tracked() && (history != [] ==> Last(history).now <= r.now) {
        RequestIsAnswered(limits, history, r);
      }
      history := history + [r];
      var before := counters;
      counters := counters - r.purge;
      assert ProjectKey(r) !in r.purge && AddressKey(r) !in r.purge;
      var projectCount := IncrementRate(ProjectKey(r));
      var addressCount := IncrementRate(AddressKey(r));
      var limit := MinInt(limits.project, limits.address);
      if projectCount > limits.project || addressCount > limits.address {
        counters := before;
        return RateLimited(limit);
      }
      return Admitted(limit, MinInt(limits.project - projectCount, limits.address - addressCount));
    }
  }
}
