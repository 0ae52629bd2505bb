/**
  Fire-once scheduling across nodes: the claim store and the epoch buckets
  interval schedules race for. Instants are nanoseconds; periods, time-to-live
  values and occurrence ids are milliseconds.
 */
module Claims {
  import Arithmetic
  import opened Text

  const MS: int := 1_000_000

  // ---- occurrences -----------------------------------------------------------

  /** Integer division rounding toward zero. */
  function TruncDiv(a: int, b: nat): (q: int)
    requires b > 0
  {
    if a >= 0 then a / b else -(-a / b)
  }

  /** `interval_bucket_ms`. */
  function IntervalBucket(wall: int, every: nat): (occ: int)
  {
    var ms := TruncDiv(wall, MS);
    var period := if every < 1 then 1 else every;
    TruncDiv(ms, period) * period
  }

  /** How long an interval claim is remembered. */
  function IntervalTtl(every: nat): (ttl: nat) { if every * 2 > 60_000 then every * 2 else 60_000 }

  const CRON_TTL: nat := 120_000

  /** From 1970 on, a bucket is the period that holds the instant. */
  lemma BucketHolds(wall: int, every: nat)
    requires wall >= 0 && every > 0
    ensures IntervalBucket(wall, every) * MS <= wall < (IntervalBucket(wall, every) + every) * MS
  {
    var ms := wall / MS;
    assert ms == ms / every * every + ms % every;
  }

  lemma BucketOfStart(every: nat, wall: int)
    requires every > 0 && 0 <= wall < every * MS
    ensures IntervalBucket(wall, every) == 0
  {
    Arithmetic.ModUnique(wall / MS, every, 0, wall / MS);
  }

  // ---- the store -------------------------------------------------------------

  datatype Claim = Claim(key: string, occ: int, ttl: nat, at: int)

  function Composite(key: string, occ: int): (k: string) { key + ":" + PrintInt(occ) }

  /** The claim key of a mount. */
  function ClaimKey(tenant: string, base: string): (k: string) { tenant + "|" + base }

  function Unexpired(t: map<string, int>, now: int): (r: map<string, int>)
  {
    map k | k in t && t[k] > now :: t[k]
  }

  function Wins(t: map<string, int>, c: Claim): (b: bool)
  {
    Composite(c.key, c.occ) !in Unexpired(t, c.at)
  }

  function Claimed(t: map<string, int>, c: Claim): (r: map<string, int>)
  {
    var kept := Unexpired(t, c.at);
    if Wins(t, c) then kept[Composite(c.key, c.occ) := c.at + c.ttl * MS] else kept
  }

  class MemScheduleStore {
    var claimed: map<string, int>

    constructor ()
      ensures claimed == map[]
    {
      claimed := map[];
    }

    method TryClaim(c: Claim) returns (won: bool)
      modifies this
      ensures won == Wins(old(claimed), c)
      ensures claimed == Claimed(old(claimed), c)
    {
      var composite := Composite(c.key, c.occ);
      var now := c.at;
      claimed := map k | k in claimed && claimed[k] > now :: claimed[k];
      if composite !in claimed {
        claimed := claimed[composite := now + c.ttl * MS];
        won := true;
      } else {
        won := false;
      }
    }
  }

  // ---- every sequence of claims ----------------------------------------------

  /** The store after a sequence of claims. */
  function Table(cs: seq<Claim>): (t: map<string, int>)
  {
    if cs == [] then map[] else Claimed(Table(cs[..|cs| - 1]), cs[|cs| - 1])
  }

  predicate Won(cs: seq<Claim>, i: nat)
    requires i < |cs|
  {
    Wins(Table(cs[..i]), cs[i])
  }

  predicate InOrder(cs: seq<Claim>) {
    forall i, j :: 0 <= i <= j < |cs| ==> cs[i].at <= cs[j].at
  }

  predicate SameOccurrence(a: Claim, b: Claim) { a.key == b.key && a.occ == b.occ }

  function Expiry(c: Claim): int { c.at + c.ttl * MS }

  lemma TableStep(cs: seq<Claim>, n: nat)
    requires n < |cs|
    ensures Table(cs[..n + 1]) == Claimed(Table(cs[..n]), cs[n])
  {
    assert cs[..n + 1][..n] == cs[..n];
  }

  lemma NoneAfter(k: string, p: string, c: char)
    requires c !in p
    ensures forall j :: |k| < j < |k + [c] + p| ==> (k + [c] + p)[j] != c
  {
  }

  lemma LastSeparator(k: string, p: string, k': string, p': string, c: char)
    requires k + [c] + p == k' + [c] + p' && c !in p && c !in p'
    ensures k == k' && p == p'
  {
    var whole := k + [c] + p;
    assert whole[|k|] == c && whole[|k'|] == c;
    assert p == whole[|k| + 1..] && p' == whole[|k'| + 1..];
    NoneAfter(k, p, c);
    NoneAfter(k', p', c);
    assert k == whole[..|k|] && k' == whole[..|k'|];
  }

  /** A composite key names one claim key and one occurrence. */
  lemma CompositeInjective(key: string, occ: int, key': string, occ': int)
    requires Composite(key, occ) == Composite(key', occ')
    ensures key == key' && occ == occ'
  {
    assert AllDigits(Print(if occ < 0 then -occ else occ)) && AllDigits(Print(if occ' < 0 then -occ' else occ'));
    LastSeparator(key, PrintInt(occ), key', PrintInt(occ'), ':');
    PrintIntInjective(occ, occ');
  }

  lemma NoneBefore(k: string, p: string, c: char)
    requires c !in k
    ensures forall j :: 0 <= j < |k| ==> (k + [c] + p)[j] != c
  {
  }

  /** Tenant names hold no bar, so different mounts claim under different keys. */
  lemma ClaimKeyInjective(tenant: string, base: string, tenant': string, base': string)
    requires ClaimKey(tenant, base) == ClaimKey(tenant', base') && '|' !in tenant && '|' !in tenant'
    ensures tenant == tenant' && base == base'
  {
    var whole := ClaimKey(tenant, base);
    assert whole[|tenant|] == '|' && whole[|tenant'|] == '|';
    NoneBefore(tenant, base, '|');
    NoneBefore(tenant', base', '|');
    assert tenant == whole[..|tenant|] && tenant' == whole[..|tenant'|];
    assert base == whole[|tenant| + 1..] && base' == whole[|tenant'| + 1..];
  }

  /** While a winner's claim lasts, the store remembers it. */
  lemma {:induction false} WinIsRemembered(cs: seq<Claim>, i: nat, n: nat)
    requires i < n <= |cs| && InOrder(cs) && Won(cs, i) && cs[n - 1].at < Expiry(cs[i])
    ensures Composite(cs[i].key, cs[i].occ) in Table(cs[..n])
    ensures Table(cs[..n])[Composite(cs[i].key, cs[i].occ)] == Expiry(cs[i])
    decreases n
  {
    hide Composite;
    TableStep(cs, n - 1);
    if n > i + 1 { WinIsRemembered(cs, i, n - 1); }
  }

  /** What the store remembers was won, and nothing else was. */
  lemma {:induction false} Winner(cs: seq<Claim>, n: nat, k: string) returns (i: nat)
    requires n <= |cs| && k in Table(cs[..n])
    ensures i < n && Won(cs, i) && Composite(cs[i].key, cs[i].occ) == k && Table(cs[..n])[k] == Expiry(cs[i])
    decreases n
  {
    TableStep(cs, n - 1);
    if Won(cs, n - 1) && k == Composite(cs[n - 1].key, cs[n - 1].occ) {
      i := n - 1;
    } else {
      i := Winner(cs, n - 1, k);
    }
  }

  /** An earlier winner of the same occurrence whose claim has not run out. */
  ghost predicate Blocks(cs: seq<Claim>, i: nat, j: nat)
    requires j < |cs|
  {
    i < j && Won(cs, i) && SameOccurrence(cs[i], cs[j]) && cs[j].at < Expiry(cs[i])
  }

  /** A claim is refused exactly when an earlier winner of its own occurrence still holds it. */
  lemma LosesIffBlocked(cs: seq<Claim>, j: nat)
    requires j < |cs| && InOrder(cs)
    ensures !Won(cs, j) <==> exists i: nat :: Blocks(cs, i, j)
  {
    hide Composite;
    if !Won(cs, j) {
      var k := Composite(cs[j].key, cs[j].occ);
      var i := Winner(cs, j, k);
      CompositeInjective(cs[i].key, cs[i].occ, cs[j].key, cs[j].occ);
      assert Blocks(cs, i, j);
    }
    if i: nat :| Blocks(cs, i, j) {
      WinIsRemembered(cs, i, j);
    }
  }

  // ---- fire once -------------------------------------------------------------

  /** A mount's two wins of one occurrence. */
  ghost predicate Twice(cs: seq<Claim>, key: string, i: nat, j: nat) {
    i < j < |cs| && Won(cs, i) && Won(cs, j) && cs[i].key == key && SameOccurrence(cs[i], cs[j])
  }

  /**
    Every claim on the mount, from whatever node, is issued no later than `lag`
    after the clock reading its bucket was computed from.
   */
  predicate Prompt(cs: seq<Claim>, walls: seq<int>, key: string, every: nat, lag: nat) {
    && |walls| == |cs|
    && forall i :: 0 <= i < |cs| && cs[i].key == key ==>
      && cs[i].occ == IntervalBucket(walls[i], every) && cs[i].ttl == IntervalTtl(every)
      && 0 <= walls[i] <= cs[i].at <= walls[i] + lag
  }

  lemma PromptFiresOnce(cs: seq<Claim>, walls: seq<int>, key: string, every: nat, lag: nat, i: nat, j: nat)
    requires every > 0 && InOrder(cs) && Prompt(cs, walls, key, every, lag)
    requires every * MS + lag <= IntervalTtl(every) * MS
    ensures !Twice(cs, key, i, j)
  {
    if Twice(cs, key, i, j) {
      BucketHolds(walls[i], every);
      BucketHolds(walls[j], every);
      LosesIffBlocked(cs, j);
      assert Blocks(cs, i, j);
    }
  }

  /** A second win of bucket 0 once the lag outlasts the claim. */
  lemma LateClaimFiresTwice(every: nat, lag: nat) returns (cs: seq<Claim>, walls: seq<int>)
    requires every > 0 && every * MS + lag > IntervalTtl(every) * MS
    ensures InOrder(cs) && Prompt(cs, walls, "m", every, lag) && Twice(cs, "m", 0, 1)
  {
    walls := [0, every * MS - 1];
    var ttl := IntervalTtl(every);
    cs := [Claim("m", 0, ttl, 0), Claim("m", 0, ttl, walls[1] + lag)];
    BucketOfStart(every, walls[0]);
    BucketOfStart(every, walls[1]);
    TableStep(cs, 0);
    assert cs[..0] == [];
  }

  /**
    Whatever nodes claim whenever, a mount's interval bucket is won at most once
    in the whole run if and only if claims lag by no more than a period, or a
    period and the lag fit in a minute.
   */
  lemma IntervalFiresOnceIff(every: nat, lag: nat)
    requires every > 0
    ensures (forall cs, walls, key, i, j ::
      InOrder(cs) && Prompt(cs, walls, key, every, lag) ==> !Twice(cs, key, i, j))
      <==> lag <= every * 1_000_000 || every * 1_000_000 + lag <= 60_000_000_000
  {
    if every * MS + lag <= IntervalTtl(every) * MS {
      forall cs, walls, key, i, j | InOrder(cs) && Prompt(cs, walls, key, every, lag) ensures !Twice(cs, key, i, j) {
        PromptFiresOnce(cs, walls, key, every, lag, i, j);
      }
    } else {
      var cs, walls := LateClaimFiresTwice(every, lag);
    }
  }

  /** A whole period of lag is always tolerated. */
  lemma OnePeriodIsTolerated(every: nat)
    requires every > 0
    ensures every * MS + every * MS <= IntervalTtl(every) * MS
  {
  }

  /** Every claim on a cron mount is issued within `lag` of the occurrence it names. */
  predicate PromptCron(cs: seq<Claim>, key: string, lag: nat) {
    forall i :: 0 <= i < |cs| && cs[i].key == key ==>
      cs[i].ttl == CRON_TTL && cs[i].occ * MS <= cs[i].at <= cs[i].occ * MS + lag
  }

  /** A cron occurrence is won at most once if and only if claims lag by less than two minutes. */
  lemma CronFiresOnceIff(lag: nat)
    ensures (forall cs, key, i, j :: InOrder(cs) && PromptCron(cs, key, lag) ==> !Twice(cs, key, i, j))
      <==> lag < 120_000_000_000
  {
    if lag < CRON_TTL * MS {
      forall cs, key, i, j | InOrder(cs) && PromptCron(cs, key, lag) ensures !Twice(cs, key, i, j) {
        if Twice(cs, key, i, j) {
          LosesIffBlocked(cs, j);
          assert Blocks(cs, i, j);
        }
      }
    } else {
      var cs := [Claim("m", 0, CRON_TTL, 0), Claim("m", 0, CRON_TTL, lag)];
      TableStep(cs, 0);
      assert cs[..0] == [];
      assert PromptCron(cs, "m", lag) && Twice(cs, "m", 0, 1);
    }
  }
}
