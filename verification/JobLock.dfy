/**
  The distributed lock of the scheduled jobs: one `SET NX EX` per job and day on a shared Redis.

  `Acquire` says what one attempt does to the server and what it tells its caller; a history is
  the list of attempts of all replicas in the order they reach the server's clock.
*/
module JobLock {
  import Text

  datatype Day = Day(year: nat, month: nat, day: nat)
  {
    predicate OnCalendar() { 1 <= month <= 12 && 1 <= day <= 31 }
  }

  function TwoDigits(n: nat): string {
    if n < 10 then "0" + Text.Decimal(n) else Text.Decimal(n)
  }

  // strftime('%Y-%m-%d')
  function DayText(d: Day): string {
    Text.Decimal(d.year) + "-" + TwoDigits(d.month) + "-" + TwoDigits(d.day)
  }

  function OccurrenceKey(job: string, d: Day): string {
    "semanticos:joblock:" + job + ":" + DayText(d)
  }

  lemma TwoDigitsInjective(m: nat, n: nat)
    requires TwoDigits(m) == TwoDigits(n) && 1 <= m && 1 <= n
    ensures m == n
  {
    Text.ValueOfDecimal(m);
    Text.ValueOfDecimal(n);
    LeadingDigitIsNotZero(m);
    LeadingDigitIsNotZero(n);
    assert TwoDigits(m)[0] == '0' <==> m < 10;
    assert TwoDigits(n)[0] == '0' <==> n < 10;
    if m < 10 {
      assert Text.Decimal(m) == TwoDigits(m)[1..] && Text.Decimal(n) == TwoDigits(n)[1..];
    }
  }

  lemma {:induction false} LeadingDigitIsNotZero(n: nat)
    requires n >= 1
    ensures Text.Decimal(n)[0] != '0'
  {
    if n >= 10 {
      LeadingDigitIsNotZero(n / 10);
    }
  }

  lemma DecimalHasNo(n: nat, c: char)
    requires !Text.IsDigit(c)
    ensures c !in Text.Decimal(n) && (c !in TwoDigits(n))
  {
  }

  // Keys of different jobs or of different days never collide, whatever the job is called.
  lemma KeysNeverCollide(j: string, d: Day, k: string, e: Day)
    requires d.OnCalendar() && e.OnCalendar()
    ensures OccurrenceKey(j, d) == OccurrenceKey(k, e) <==> j == k && d == e
  {
    if OccurrenceKey(j, d) == OccurrenceKey(k, e) {
      var prefix := "semanticos:joblock:";
      DayTextHasNoColon(d);
      DayTextHasNoColon(e);
      assert OccurrenceKey(j, d) == (prefix + j) + [':'] + DayText(d);
      assert OccurrenceKey(k, e) == (prefix + k) + [':'] + DayText(e);
      Text.LastSplitUnique(prefix + j, DayText(d), prefix + k, DayText(e), ':');
      assert j == (prefix + j)[|prefix|..] && k == (prefix + k)[|prefix|..];
      DayTextInjective(d, e);
    }
  }

  lemma DayTextHasNoColon(d: Day)
    ensures ':' !in DayText(d)
  {
    DecimalHasNo(d.year, ':');
    DecimalHasNo(d.month, ':');
    DecimalHasNo(d.day, ':');
  }

  lemma DayTextInjective(d: Day, e: Day)
    requires d.OnCalendar() && e.OnCalendar() && DayText(d) == DayText(e)
    ensures d == e
  {
    DecimalHasNo(d.month, '-');
    DecimalHasNo(d.day, '-');
    DecimalHasNo(e.month, '-');
    DecimalHasNo(e.day, '-');
    var ym, ym' := Text.Decimal(d.year) + "-" + TwoDigits(d.month), Text.Decimal(e.year) + "-" + TwoDigits(e.month);
    assert DayText(d) == ym + ['-'] + TwoDigits(d.day);
    assert DayText(e) == ym' + ['-'] + TwoDigits(e.day);
    Text.LastSplitUnique(ym, TwoDigits(d.day), ym', TwoDigits(e.day), '-');
    Text.LastSplitUnique(Text.Decimal(d.year), TwoDigits(d.month), Text.Decimal(e.year), TwoDigits(e.month), '-');
    Text.DecimalInjective(d.year, e.year);
    TwoDigitsInjective(d.month, e.month);
    TwoDigitsInjective(d.day, e.day);
  }

  // ---------------------------------------------------------------- the lock server

  // Key -> the instant it expires.
  type Redis = map<string, int>

  // What the network does with one attempt: the reply comes back, the command is executed but
  // its reply is lost, or the server is never reached.
  datatype Network = Delivered | ReplyLost | Unreachable

  predicate Held(redis: Redis, key: string, now: int) {
    key in redis && now < redis[key]
  }

  // SET key NX EX ttl.  Redis refuses a non-positive expiry.
  function SetNx(redis: Redis, key: string, now: int, ttl: int): (Redis, bool) {
    if ttl <= 0 || Held(redis, key, now) then (redis, false) else (redis[key := now + ttl], true)
  }

  // `configured` is false when REDIS_URL is unset: a single-instance deployment runs unlocked.
  function Acquire(redis: Redis, configured: bool, key: string, now: int, ttl: int, net: Network): (Redis, bool) {
    if !configured then (redis, true)
    else match net
      case Unreachable => (redis, false)
      case ReplyLost => (SetNx(redis, key, now, ttl).0, false)
      case Delivered => SetNx(redis, key, now, ttl)
  }

  class LockServer {
    var expiry: Redis

    constructor ()
      ensures expiry == map[]
    {
      expiry := map[];
    }

    method SetIfAbsent(key: string, now: int, ttl: int) returns (won: bool)
      modifies this
      ensures (expiry, won) == SetNx(old(expiry), key, now, ttl)
    {
      won := ttl > 0 && !Held(expiry, key, now);
      if won {
        expiry := expiry[key := now + ttl];
      }
    }

    // `acquire_job_slot`
    method AcquireJobSlot(configured: bool, job: string, day: Day, now: int, ttl: int, net: Network)
      returns (mayRun: bool)
      modifies this
      ensures (expiry, mayRun) == Acquire(old(expiry), configured, OccurrenceKey(job, day), now, ttl, net)
      ensures !configured ==> mayRun && expiry == old(expiry)
      ensures configured ==>
                var key := OccurrenceKey(job, day);
                var free := ttl > 0 && !(key in old(expiry) && now < old(expiry)[key]);
                && (mayRun <==> free && net == Delivered)
                && expiry == if free && net != Unreachable then old(expiry)[key := now + ttl] else old(expiry)
    {
      if !configured {
        return true;
      }
      if net == Unreachable {
        return false;  // exclusivity cannot be established
      }
      var won := SetIfAbsent(OccurrenceKey(job, day), now, ttl);
      mayRun := won && net == Delivered;
    }
  }

  // ---------------------------------------------------------------- histories

  datatype Attempt = Attempt(key: string, now: int, net: Network)

  function RedisAfter(attempts: seq<Attempt>, ttl: int): Redis {
    if attempts == [] then map[]
    else
      var a := attempts[|attempts| - 1];
      Acquire(RedisAfter(attempts[..|attempts| - 1], ttl), true, a.key, a.now, ttl, a.net).0
  }

  predicate Wins(attempts: seq<Attempt>, i: nat, ttl: int)
    requires i < |attempts|
  {
    var a := attempts[i];
    Acquire(RedisAfter(attempts[..i], ttl), true, a.key, a.now, ttl, a.net).1
  }

  predicate InOrder(attempts: seq<Attempt>) {
    forall i, j :: 0 <= i <= j < |attempts| ==> attempts[i].now <= attempts[j].now
  }

  // The server executes the first command for a key, and each one that finds it expired.
  predicate Sets(attempts: seq<Attempt>, i: nat, ttl: int)
    requires i < |attempts|
  {
    var a := attempts[i];
    a.net != Unreachable && SetNx(RedisAfter(attempts[..i], ttl), a.key, a.now, ttl).1
  }

  lemma {:induction false} SetKeyIsHeld(attempts: seq<Attempt>, i: nat, n: nat, ttl: int)
    requires InOrder(attempts) && i < n <= |attempts| && Sets(attempts, i, ttl)
    ensures var redis := RedisAfter(attempts[..n], ttl);
            attempts[i].key in redis && redis[attempts[i].key] >= attempts[i].now + ttl
  {
    assert attempts[..n][..n - 1] == attempts[..n - 1];
    if n > i + 1 {
      SetKeyIsHeld(attempts, i, n - 1, ttl);
    }
  }

  // Two wins of one key are at least the TTL apart, with any number of lost replies and
  // unreachable attempts in between.
  lemma WinsAreTtlApart(attempts: seq<Attempt>, i: nat, j: nat, ttl: int)
    requires InOrder(attempts) && i < j < |attempts|
    requires attempts[i].key == attempts[j].key && Wins(attempts, i, ttl) && Wins(attempts, j, ttl)
    ensures attempts[j].now >= attempts[i].now + ttl
  {
    SetKeyIsHeld(attempts, i, j, ttl);
  }

  lemma {:induction false} HeldKeyWasSet(attempts: seq<Attempt>, key: string, n: nat, ttl: int) returns (h: nat)
    requires n <= |attempts| && key in RedisAfter(attempts[..n], ttl)
    ensures h < n && attempts[h].key == key && Sets(attempts, h, ttl)
    ensures RedisAfter(attempts[..n], ttl)[key] == attempts[h].now + ttl
  {
    assert attempts[..n][..n - 1] == attempts[..n - 1];
    if attempts[n - 1].key == key && Sets(attempts, n - 1, ttl) {
      h := n - 1;
    } else {
      h := HeldKeyWasSet(attempts, key, n - 1, ttl);
    }
  }

  // Over any ordered history an attempt wins exactly when its reply comes back and every earlier
  // attempt that set its key did so at least the TTL before: the lock always comes free again.
  lemma WinsWhenFreeAgain(attempts: seq<Attempt>, i: nat, ttl: int)
    requires InOrder(attempts) && i < |attempts| && ttl > 0
    ensures Wins(attempts, i, ttl) <==>
              && attempts[i].net == Delivered
              && forall h :: 0 <= h < i && attempts[h].key == attempts[i].key && Sets(attempts, h, ttl)
                             ==> attempts[h].now + ttl <= attempts[i].now
  {
    var redis, key := RedisAfter(attempts[..i], ttl), attempts[i].key;
    forall h | 0 <= h < i && attempts[h].key == key && Sets(attempts, h, ttl)
      ensures key in redis && redis[key] >= attempts[h].now + ttl
    {
      SetKeyIsHeld(attempts, h, i, ttl);
    }
    if key in redis {
      var h := HeldKeyWasSet(attempts, key, i, ttl);
    }
  }

  ghost predicate FirstToReach(attempts: seq<Attempt>, i: nat)
    requires i < |attempts|
  {
    && attempts[i].net != Unreachable
    && forall h :: 0 <= h < i && attempts[h].key == attempts[i].key ==> attempts[h].net == Unreachable
  }

  lemma {:induction false} UntouchedKeyIsAbsent(attempts: seq<Attempt>, key: string, n: nat, ttl: int)
    requires n <= |attempts| && forall h :: 0 <= h < n && attempts[h].key == key ==> attempts[h].net == Unreachable
    ensures key !in RedisAfter(attempts[..n], ttl)
  {
    if n > 0 {
      assert attempts[..n][..n - 1] == attempts[..n - 1];
      UntouchedKeyIsAbsent(attempts, key, n - 1, ttl);
    }
  }

  // When all attempts fall within one TTL, an attempt wins exactly when it is the first of its
  // key to reach the server and its reply comes back: so at most one wins, and none at all if
  // that one reply is lost.
  lemma WinnerIsFirstToReach(attempts: seq<Attempt>, i: nat, ttl: int)
    requires InOrder(attempts) && i < |attempts| && ttl > 0
    requires forall h, k :: 0 <= h < |attempts| && 0 <= k < |attempts| ==> attempts[k].now < attempts[h].now + ttl
    ensures Wins(attempts, i, ttl) <==> FirstToReach(attempts, i) && attempts[i].net == Delivered
  {
    if FirstToReach(attempts, i) {
      UntouchedKeyIsAbsent(attempts, attempts[i].key, i, ttl);
    } else if attempts[i].net != Unreachable {
      var h := FirstReaching(attempts, attempts[i].key, i);
      UntouchedKeyIsAbsent(attempts, attempts[i].key, h, ttl);
      SetKeyIsHeld(attempts, h, i, ttl);
    }
  }

  lemma FirstReaching(attempts: seq<Attempt>, key: string, n: nat) returns (h: nat)
    requires n <= |attempts| && exists k :: 0 <= k < n && attempts[k].key == key && attempts[k].net != Unreachable
    ensures h < n && attempts[h].key == key && FirstToReach(attempts, h)
  {
    h := 0;
    while attempts[h].key != key || attempts[h].net == Unreachable
      invariant h < n
      invariant forall k :: 0 <= k < h && attempts[k].key == key ==> attempts[k].net == Unreachable
      decreases n - h
    {
      h := h + 1;
    }
  }
}
