/**
 Replay protection of digest authentication (internal/sip/auth/digest.go): nonce
 lifetimes and the bounded cache of nonce counts (section 3.4 of RFC 7616). Message
 authentication codes and digests are not computed; whether they match is an input,
 and `issued` gives the time a nonce carries.
 */
module DigestReplay {
  datatype ReplayKey = ReplayKey(nonce: string, username: string)

  datatype Entry = Entry(maxNonceCount: int, expiresAt: int)

  type Cache = map<ReplayKey, Entry>

  datatype Config = Config(nonceTTL: int, maxEntries: nat, issued: string -> int)

  datatype Verdict = Accepted | MissingCredentials | InvalidCredentials | StaleNonce | Replayed | CapacityReached

  /** One authorization with the outcome of the checks around the cache and its two clock readings, in nanoseconds. */
  datatype Attempt = Attempt(
    nonce: string, username: string, nonceCount: int,
    present: bool, fieldsMatch: bool, macMatches: bool, credentialFound: bool, responseMatches: bool,
    validatedAt: int, recordedAt: int)

  function KeyOf(a: Attempt): ReplayKey { ReplayKey(a.nonce, a.username) }

  function ExpiresAt(cfg: Config, nonce: string): int { cfg.issued(nonce) + cfg.nonceTTL }

  /** validateNonce: not from more than a minute ahead, and not expired. */
  function NonceVerdict(cfg: Config, a: Attempt): Verdict {
    if !a.macMatches || cfg.issued(a.nonce) > a.validatedAt + 60_000_000_000 then InvalidCredentials
    else if ExpiresAt(cfg, a.nonce) <= a.validatedAt then StaleNonce
    else Accepted
  }

  function Unexpired(c: Cache, now: int): Cache { map k | k in c && c[k].expiresAt > now :: c[k] }

  /** recordNonceCount: expired entries are dropped only when a new key finds the cache full. */
  function Recorded(cfg: Config, c: Cache, key: ReplayKey, count: int, expiresAt: int, now: int): (Cache, Verdict) {
    if key in c then
      if count <= c[key].maxNonceCount then (c, Replayed) else (c[key := Entry(count, expiresAt)], Accepted)
    else
      var kept := if |c| >= cfg.maxEntries then Unexpired(c, now) else c;
      if |kept| >= cfg.maxEntries then (kept, CapacityReached) else (kept[key := Entry(count, expiresAt)], Accepted)
  }

  /** Verify: the cache is touched only after every other check has passed. */
  function Verified(cfg: Config, c: Cache, a: Attempt): (Cache, Verdict) {
    if !a.present then (c, MissingCredentials)
    else if !a.fieldsMatch || a.nonceCount <= 0 then (c, InvalidCredentials)
    else if NonceVerdict(cfg, a) != Accepted then (c, NonceVerdict(cfg, a))
    else if !a.credentialFound || !a.responseMatches then (c, InvalidCredentials)
    else Recorded(cfg, c, KeyOf(a), a.nonceCount, ExpiresAt(cfg, a.nonce), a.recordedAt)
  }

  class Authenticator {
    const cfg: Config
    var replay: Cache

    constructor (cfg: Config)
      requires cfg.nonceTTL > 0 && cfg.maxEntries > 0
      ensures this.cfg == cfg && replay == map[]
    {
      this.cfg, replay := cfg, map[];
    }

    method Verify(a: Attempt) returns (v: Verdict)
      modifies this
      ensures (replay, v) == Verified(cfg, old(replay), a)
    {
      if !a.present {
        return MissingCredentials;
      }
      if !a.fieldsMatch || a.nonceCount <= 0 {
        return InvalidCredentials;
      }
      v := NonceVerdict(cfg, a);
      if v != Accepted {
        return;
      }
      if !a.credentialFound || !a.responseMatches {
        return InvalidCredentials;
      }
      v := RecordNonceCount(KeyOf(a), a.nonceCount, ExpiresAt(cfg, a.nonce), a.recordedAt);
    }

    method RecordNonceCount(key: ReplayKey, count: int, expiresAt: int, now: int) returns (v: Verdict)
      modifies this
      ensures (replay, v) == Recorded(cfg, old(replay), key, count, expiresAt, now)
    {
      if key in replay {
        if count <= replay[key].maxNonceCount {
          return Replayed;
        }
        replay := replay[key := Entry(count, expiresAt)];
        return Accepted;
      }
      if |replay| >= cfg.maxEntries {
        Evict(now);
      }
      if |replay| >= cfg.maxEntries {
        return CapacityReached;
      }
      replay := replay[key := Entry(count, expiresAt)];
      return Accepted;
    }

    method Evict(now: int)
      modifies this
      ensures replay == Unexpired(old(replay), now)
    {
      var todo := replay.Keys;
      while todo != {}
        invariant todo <= replay.Keys <= old(replay).Keys
        invariant forall k :: k in replay ==> replay[k] == old(replay)[k]
        invariant forall k :: k in old(replay) && k !in replay ==> old(replay)[k].expiresAt <= now
        invariant forall k :: k in replay && k !in todo ==> replay[k].expiresAt > now
        decreases |todo|
      {
        var key :| key in todo;
        todo := todo - {key};
        if replay[key].expiresAt <= now {
          replay := replay - {key};
        }
      }
    }
  }

  // ---- What each verdict means ----

  ghost predicate IsWellFormed(a: Attempt) { a.present && a.fieldsMatch && a.nonceCount > 0 }

  /** The nonce is one of ours, from no more than a minute ahead. */
  ghost predicate IsGenuine(cfg: Config, a: Attempt) {
    a.macMatches && cfg.issued(a.nonce) - 60_000_000_000 <= a.validatedAt
  }

  ghost predicate IsFresh(cfg: Config, a: Attempt) { a.validatedAt < cfg.issued(a.nonce) + cfg.nonceTTL }

  ghost predicate IsProven(a: Attempt) { a.credentialFound && a.responseMatches }

  /** How many entries of the cache have not expired. */
  ghost function Live(c: Cache, now: int): nat { |set k | k in c && c[k].expiresAt > now| }

  lemma LiveIsUnexpired(c: Cache, now: int)
    ensures Live(c, now) == |Unexpired(c, now)|
  {
    assert (set k | k in c && c[k].expiresAt > now) == Unexpired(c, now).Keys;
  }

  /** Each verdict is given exactly when these facts about the attempt and the cache hold. */
  lemma VerdictMeans(cfg: Config, c: Cache, a: Attempt)
    ensures var v, key := Verified(cfg, c, a).1, ReplayKey(a.nonce, a.username);
      var reaches := IsWellFormed(a) && IsGenuine(cfg, a) && IsFresh(cfg, a) && IsProven(a);
      && (v == MissingCredentials <==> !a.present)
      && (v == StaleNonce <==> IsWellFormed(a) && IsGenuine(cfg, a) && !IsFresh(cfg, a))
      && (v == Replayed <==> reaches && key in c && a.nonceCount <= c[key].maxNonceCount)
      && (v == CapacityReached <==> reaches && key !in c && Live(c, a.recordedAt) >= cfg.maxEntries)
      && (v == Accepted <==>
            reaches && if key in c then a.nonceCount > c[key].maxNonceCount else Live(c, a.recordedAt) < cfg.maxEntries)
  {
    LiveIsUnexpired(c, a.recordedAt);
    SubmapSize(Unexpired(c, a.recordedAt), c);
  }

  /** An accepted count is remembered with its nonce's expiry; only expired entries are dropped and no other changes. */
  lemma CacheAfterVerdict(cfg: Config, c: Cache, a: Attempt)
    ensures var (d, v) := Verified(cfg, c, a);
      var key := ReplayKey(a.nonce, a.username);
      && (v == Accepted ==> key in d && d[key] == Entry(a.nonceCount, cfg.issued(a.nonce) + cfg.nonceTTL))
      && (v != Accepted && v != CapacityReached ==> d == c)
      && (forall k :: k in d && (k != key || v != Accepted) ==> k in c && d[k] == c[k])
      && (forall k :: k in c && k !in d ==> c[k].expiresAt <= a.recordedAt)
  {
  }

  // ---- Whole runs ----

  function CacheAfter(cfg: Config, attempts: seq<Attempt>): Cache {
    if attempts == [] then map[]
    else
      var k := |attempts| - 1;
      Verified(cfg, CacheAfter(cfg, attempts[..k]), attempts[k]).0
  }

  function VerdictAt(cfg: Config, attempts: seq<Attempt>, i: nat): Verdict
    requires i < |attempts|
  {
    Verified(cfg, CacheAfter(cfg, attempts[..i]), attempts[i]).1
  }

  /**
   Attempts are listed in the order they take the cache's lock; their clock readings may interleave. In time: no
   attempt served earlier read the clock at or after the expiry of a nonce that was still valid when checked.
   */
  ghost predicate InTime(cfg: Config, attempts: seq<Attempt>) {
    forall k, j :: 0 <= k < j < |attempts| && NonceVerdict(cfg, attempts[j]) == Accepted ==>
      attempts[k].recordedAt < ExpiresAt(cfg, attempts[j].nonce)
  }

  /** One attempt at a time under a clock that never goes back. */
  ghost predicate OneAtATime(attempts: seq<Attempt>) {
    forall k, j :: 0 <= k < j < |attempts| ==> attempts[k].recordedAt <= attempts[j].validatedAt
  }

  /** Entries carry the expiry of their own nonce and fit the limit. */
  ghost predicate CacheSound(cfg: Config, c: Cache) {
    |c| <= cfg.maxEntries && forall k :: k in c ==> c[k].expiresAt == ExpiresAt(cfg, k.nonce)
  }

  lemma {:induction false} SubmapSize(a: Cache, b: Cache)
    requires a.Keys <= b.Keys
    ensures |a| <= |b|
    decreases |a|
  {
    if a != map[] {
      var k :| k in a;
      SubmapSize(a - {k}, b - {k});
      assert (a - {k}).Keys == a.Keys - {k} && (b - {k}).Keys == b.Keys - {k};
    }
  }

  lemma SoundStep(cfg: Config, c: Cache, a: Attempt)
    requires CacheSound(cfg, c)
    ensures CacheSound(cfg, Verified(cfg, c, a).0)
  {
    SubmapSize(Unexpired(c, a.recordedAt), c);
  }

  lemma {:induction false} CacheAlwaysSound(cfg: Config, attempts: seq<Attempt>)
    ensures CacheSound(cfg, CacheAfter(cfg, attempts))
  {
    if attempts != [] {
      var k := |attempts| - 1;
      CacheAlwaysSound(cfg, attempts[..k]);
      SoundStep(cfg, CacheAfter(cfg, attempts[..k]), attempts[k]);
    }
  }

  // ---- How long an accepted count is remembered ----

  /** The attempt reaches the cache. */
  predicate Passes(cfg: Config, a: Attempt) {
    a.present && a.fieldsMatch && a.nonceCount > 0 && NonceVerdict(cfg, a) == Accepted && a.credentialFound
      && a.responseMatches
  }

  /** The attempt drops expired entries. */
  predicate Sweeps(cfg: Config, c: Cache, a: Attempt) {
    Passes(cfg, a) && KeyOf(a) !in c && |c| >= cfg.maxEntries
  }

  /** Attempt k drops the entry of a nonce that expires at `expiresAt`. */
  ghost predicate DropsAt(cfg: Config, attempts: seq<Attempt>, k: nat, expiresAt: int)
    requires k < |attempts|
  {
    Sweeps(cfg, CacheAfter(cfg, attempts[..k]), attempts[k]) && expiresAt <= attempts[k].recordedAt
  }

  ghost predicate DroppedBetween(cfg: Config, attempts: seq<Attempt>, i: nat, j: nat, expiresAt: int)
    requires j <= |attempts|
  {
    exists k: nat :: i < k < j && DropsAt(cfg, attempts, k, expiresAt)
  }

  /** Attempt i was accepted and no attempt of its key between i and j was. */
  ghost predicate LastAccepted(cfg: Config, attempts: seq<Attempt>, i: nat, j: nat, key: ReplayKey)
    requires i < j <= |attempts|
  {
    && KeyOf(attempts[i]) == key && VerdictAt(cfg, attempts, i) == Accepted
    && forall k: nat :: i < k < j && KeyOf(attempts[k]) == key ==> VerdictAt(cfg, attempts, k) != Accepted
  }

  lemma KeptIff(cfg: Config, c: Cache, a: Attempt, key: ReplayKey)
    requires CacheSound(cfg, c) && !(KeyOf(a) == key && Verified(cfg, c, a).1 == Accepted)
    ensures var next := Verified(cfg, c, a).0;
      && (key in next <==> key in c && !(Sweeps(cfg, c, a) && ExpiresAt(cfg, key.nonce) <= a.recordedAt))
      && (key in next ==> next[key] == c[key])
  {
  }

  lemma {:induction false} CacheNext(cfg: Config, attempts: seq<Attempt>, k: nat)
    requires k < |attempts|
    ensures CacheAfter(cfg, attempts[..k + 1]) == Verified(cfg, CacheAfter(cfg, attempts[..k]), attempts[k]).0
  {
    assert attempts[..k + 1][..k] == attempts[..k];
  }

  lemma {:induction false} DroppedNext(cfg: Config, attempts: seq<Attempt>, i: nat, j: nat, expiresAt: int)
    requires i < j < |attempts|
    ensures DroppedBetween(cfg, attempts, i, j + 1, expiresAt) <==>
      DroppedBetween(cfg, attempts, i, j, expiresAt) || DropsAt(cfg, attempts, j, expiresAt)
  {
  }

  /** Before attempt j the count of attempt i is in the cache exactly if it was not dropped since. */
  ghost predicate Remembered(cfg: Config, attempts: seq<Attempt>, i: nat, j: nat, key: ReplayKey)
    requires i < j <= |attempts|
  {
    var c := CacheAfter(cfg, attempts[..j]);
    && (key in c <==> !DroppedBetween(cfg, attempts, i, j, ExpiresAt(cfg, key.nonce)))
    && (key in c ==> c[key].maxNonceCount == attempts[i].nonceCount)
  }

  lemma {:induction false} RememberedFirst(cfg: Config, attempts: seq<Attempt>, i: nat)
    requires i < |attempts| && VerdictAt(cfg, attempts, i) == Accepted
    ensures Remembered(cfg, attempts, i, i + 1, KeyOf(attempts[i]))
  {
    CacheNext(cfg, attempts, i);
  }

  lemma {:induction false} RememberedNext(cfg: Config, attempts: seq<Attempt>, i: nat, j: nat, key: ReplayKey)
    requires i < j < |attempts| && Remembered(cfg, attempts, i, j, key)
    requires !(KeyOf(attempts[j]) == key && VerdictAt(cfg, attempts, j) == Accepted)
    ensures Remembered(cfg, attempts, i, j + 1, key)
  {
    CacheAlwaysSound(cfg, attempts[..j]);
    CacheNext(cfg, attempts, j);
    KeptIff(cfg, CacheAfter(cfg, attempts[..j]), attempts[j], key);
    DroppedNext(cfg, attempts, i, j, ExpiresAt(cfg, key.nonce));
  }

  /** The last accepted count of a key stays in the cache exactly until a sweep at or after its nonce's expiry. */
  lemma {:induction false} RememberedIff(cfg: Config, attempts: seq<Attempt>, i: nat, j: nat, key: ReplayKey)
    requires i < j <= |attempts| && LastAccepted(cfg, attempts, i, j, key)
    ensures Remembered(cfg, attempts, i, j, key)
  {
    if i == j - 1 {
      RememberedFirst(cfg, attempts, i);
    } else {
      RememberedIff(cfg, attempts, i, j - 1, key);
      RememberedNext(cfg, attempts, i, j - 1, key);
    }
  }

  /**
   An attempt that repeats a count no greater than the last accepted one is accepted exactly when the entry was
   dropped in between and unexpired entries leave room.
   */
  lemma {:induction false} RepeatAcceptedIff(cfg: Config, attempts: seq<Attempt>, i: nat, j: nat)
    requires i < j < |attempts| && LastAccepted(cfg, attempts, i, j, KeyOf(attempts[j]))
    requires Passes(cfg, attempts[j]) && attempts[j].nonceCount <= attempts[i].nonceCount
    ensures VerdictAt(cfg, attempts, j) == Accepted <==>
      && DroppedBetween(cfg, attempts, i, j, ExpiresAt(cfg, attempts[j].nonce))
      && |Unexpired(CacheAfter(cfg, attempts[..j]), attempts[j].recordedAt)| < cfg.maxEntries
  {
    var c := CacheAfter(cfg, attempts[..j]);
    RememberedIff(cfg, attempts, i, j, KeyOf(attempts[j]));
    if KeyOf(attempts[j]) !in c {
      CapacityIff(cfg, c, attempts[j]);
    }
  }

  lemma {:induction false} FindLastAccepted(cfg: Config, attempts: seq<Attempt>, i: nat, j: nat, key: ReplayKey)
    returns (l: nat)
    requires i < j <= |attempts| && KeyOf(attempts[i]) == key && VerdictAt(cfg, attempts, i) == Accepted
    ensures i <= l < j && LastAccepted(cfg, attempts, l, j, key)
  {
    l := j - 1;
    while !(KeyOf(attempts[l]) == key && VerdictAt(cfg, attempts, l) == Accepted)
      invariant i <= l < j
      invariant forall k: nat :: l < k < j && KeyOf(attempts[k]) == key ==> VerdictAt(cfg, attempts, k) != Accepted
      decreases l
    {
      l := l - 1;
    }
  }

  /**
   Accepted nonce counts of a nonce and user strictly increase over the whole run, in every interleaving that is
   in time, although expired entries are dropped.
   */
  lemma {:induction false} AcceptedCountsIncrease(cfg: Config, attempts: seq<Attempt>, i: nat, j: nat)
    requires InTime(cfg, attempts) && i < j < |attempts| && KeyOf(attempts[i]) == KeyOf(attempts[j])
    requires VerdictAt(cfg, attempts, i) == Accepted && VerdictAt(cfg, attempts, j) == Accepted
    ensures attempts[i].nonceCount < attempts[j].nonceCount
    decreases j
  {
    var l := FindLastAccepted(cfg, attempts, i, j, KeyOf(attempts[j]));
    if attempts[j].nonceCount <= attempts[l].nonceCount {
      RepeatAcceptedIff(cfg, attempts, l, j);
      assert false;
    }
    if i < l {
      AcceptedCountsIncrease(cfg, attempts, i, l);
    }
  }

  /** Requests verified one at a time are in time. */
  lemma {:induction false} OneAtATimeIsInTime(cfg: Config, attempts: seq<Attempt>)
    requires OneAtATime(attempts)
    ensures InTime(cfg, attempts)
  {
    forall k, j | 0 <= k < j < |attempts| && NonceVerdict(cfg, attempts[j]) == Accepted
      ensures attempts[k].recordedAt < ExpiresAt(cfg, attempts[j].nonce)
    {
      assert attempts[k].recordedAt <= attempts[j].validatedAt;
    }
  }

  /** A new key is refused for capacity exactly when unexpired entries alone fill the cache. */
  lemma CapacityIff(cfg: Config, c: Cache, a: Attempt)
    requires Passes(cfg, a) && KeyOf(a) !in c
    ensures Verified(cfg, c, a).1 == CapacityReached <==> |Unexpired(c, a.recordedAt)| >= cfg.maxEntries
    ensures Verified(cfg, c, a).1 == Accepted <==> |Unexpired(c, a.recordedAt)| < cfg.maxEntries
  {
    SubmapSize(Unexpired(c, a.recordedAt), c);
  }

  // ---- A run out of time ----

  function Seconds(s: int): int { s * 1_000_000_000 }

  /** A first use of a nonce, with its clock readings in seconds. */
  function Request(nonce: string, validatedAt: int, recordedAt: int): Attempt {
    Attempt(nonce, "alice", 1, true, true, true, true, true, Seconds(validatedAt), Seconds(recordedAt))
  }

  /**
   Checked before the expiry of its nonce but served after a sweep past it, the same count is accepted twice:
   nonces "a" and "b" live to second 10, "c" to second 20, and the cache holds two entries.
   */
  lemma LateRepeatIsAccepted()
    ensures var cfg := Config(Seconds(10), 2, (n: string) => if n == "c" then Seconds(10) else 0);
      var attempts := [Request("a", 9, 9), Request("b", 9, 9), Request("c", 10, 10), Request("a", 9, 11)];
      && KeyOf(attempts[0]) == KeyOf(attempts[3]) && attempts[0].nonceCount == attempts[3].nonceCount
      && VerdictAt(cfg, attempts, 0) == Accepted && VerdictAt(cfg, attempts, 3) == Accepted
  {
    var issued := (n: string) => if n == "c" then Seconds(10) else 0;
    var cfg := Config(Seconds(10), 2, issued);
    var a, b, c, again := Request("a", 9, 9), Request("b", 9, 9), Request("c", 10, 10), Request("a", 9, 11);
    var attempts := [a, b, c, again];
    assert attempts[..0] == [] && CacheAfter(cfg, attempts[..0]) == map[];
    var one: Cache := map[KeyOf(a) := Entry(1, Seconds(10))];
    var two := one[KeyOf(b) := Entry(1, Seconds(10))];
    var swept: Cache := map[KeyOf(c) := Entry(1, Seconds(20))];
    Joins(cfg, map[], a);
    Joins(cfg, one, b);
    assert Unexpired(two, Seconds(10)) == map[];
    SweepsAll(cfg, two, c);
    Joins(cfg, swept, again);
    CacheNext(cfg, attempts, 0);
    CacheNext(cfg, attempts, 1);
    CacheNext(cfg, attempts, 2);
  }

  lemma Joins(cfg: Config, c: Cache, a: Attempt)
    requires Passes(cfg, a) && KeyOf(a) !in c && |c| < cfg.maxEntries
    ensures Verified(cfg, c, a) == (c[KeyOf(a) := Entry(a.nonceCount, ExpiresAt(cfg, a.nonce))], Accepted)
  {
  }

  lemma SweepsAll(cfg: Config, c: Cache, a: Attempt)
    requires Sweeps(cfg, c, a) && Unexpired(c, a.recordedAt) == map[] && cfg.maxEntries > 0
    ensures Verified(cfg, c, a) == (map[KeyOf(a) := Entry(a.nonceCount, ExpiresAt(cfg, a.nonce))], Accepted)
  {
  }
}
