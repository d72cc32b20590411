/**
 Registration bindings: the manager's policy (internal/core/registration/manager.go),
 the durable store's upsert rule (internal/platform/mysql/store.go) and the memory
 store (internal/platform/memory/registration_store.go). Rows are a map with atomic
 operations; times are integers.
 */
module Registration {
  import opened Wrap

  datatype Key = Key(tenant: string, aor: string, contact: string)

  datatype Binding = Binding(id: string, tenant: string, aor: string, contact: string, route: string, expiresAt: int,
    updatedAt: int)

  function KeyOf(b: Binding): Key { Key(b.tenant, b.aor, b.contact) }

  type Table = map<Key, Binding>

  predicate IsActive(t: Table, k: Key, tenant: string, aor: string, now: int) {
    k in t && k.tenant == tenant && k.aor == aor && t[k].expiresAt > now
  }

  function ActiveKeys(t: Table, tenant: string, aor: string, now: int): set<Key> {
    set k | k in t && IsActive(t, k, tenant, aor, now)
  }

  // ---- The two upsert rules ----

  /** The active bindings of b's address of record when b is written. */
  function Rivals(t: Table, b: Binding): set<Key> { ActiveKeys(t, b.tenant, b.aor, b.updatedAt) }

  predicate SqlAccepts(t: Table, b: Binding, max: nat) { KeyOf(b) in Rivals(t, b) || |Rivals(t, b)| < max }

  predicate MemoryAccepts(t: Table, b: Binding, max: nat) { KeyOf(b) in t || |Rivals(t, b)| < max }

  /** Refreshing a binding that is stored but expired, while others already fill the limit. */
  predicate Revives(t: Table, b: Binding, max: nat) {
    KeyOf(b) in t && t[KeyOf(b)].expiresAt <= b.updatedAt && |Rivals(t, b)| >= max
  }

  function Without(t: Table, tenant: string, aor: string): Table {
    map k | k in t && !(k.tenant == tenant && k.aor == aor) :: t[k]
  }

  function Unexpired(t: Table, now: int): Table { map k | k in t && t[k].expiresAt > now :: t[k] }

  class MemoryStore {
    var bindings: Table

    constructor ()
      ensures bindings == map[]
    {
      bindings := map[];
    }

    /** Upsert: the counting loop runs only for a key that is not stored. */
    method Upsert(b: Binding, max: nat) returns (ok: bool)
      modifies this
      ensures ok == MemoryAccepts(old(bindings), b, max)
      ensures bindings == if ok then old(bindings)[KeyOf(b) := b] else old(bindings)
    {
      if KeyOf(b) !in bindings {
        var activeCount := CountActive(bindings, b);
        if activeCount >= max {
          return false;
        }
      }
      bindings := bindings[KeyOf(b) := b];
      return true;
    }

    method Delete(tenant: string, aor: string, contact: string)
      modifies this
      ensures bindings == old(bindings) - {Key(tenant, aor, contact)}
    {
      bindings := bindings - {Key(tenant, aor, contact)};
    }

    method DeleteAll(tenant: string, aor: string)
      modifies this
      ensures bindings == Without(old(bindings), tenant, aor)
    {
      var keys := bindings.Keys;
      while keys != {}
        invariant keys <= bindings.Keys <= old(bindings).Keys
        invariant forall k :: k in bindings ==> bindings[k] == old(bindings)[k]
        invariant forall k :: k in old(bindings) && k !in bindings ==> k.tenant == tenant && k.aor == aor
        invariant forall k :: k in bindings && k !in keys ==> !(k.tenant == tenant && k.aor == aor)
        decreases |keys|
      {
        var key :| key in keys;
        keys := keys - {key};
        if key.tenant == tenant && key.aor == aor {
          bindings := bindings - {key};
        }
      }
    }

    method DeleteExpired(now: int) returns (deleted: nat)
      modifies this
      ensures bindings == Unexpired(old(bindings), now)
      ensures deleted == |old(bindings)| - |bindings|
    {
      deleted := 0;
      var keys := bindings.Keys;
      while keys != {}
        invariant keys <= bindings.Keys <= old(bindings).Keys
        invariant forall k :: k in bindings ==> bindings[k] == old(bindings)[k]
        invariant forall k :: k in old(bindings) && k !in bindings ==> old(bindings)[k].expiresAt <= now
        invariant forall k :: k in bindings && k !in keys ==> bindings[k].expiresAt > now
        invariant deleted == |old(bindings)| - |bindings|
        decreases |keys|
      {
        var key :| key in keys;
        keys := keys - {key};
        if bindings[key].expiresAt <= now {
          var before := bindings;
          bindings := bindings - {key};
          assert before.Keys == bindings.Keys + {key};
          deleted := deleted + 1;
        }
      }
    }
  }

  class SqlStore {
    var rows: Table

    constructor ()
      ensures rows == map[]
    {
      rows := map[];
    }

    /** Upsert: every active row of the address of record is read under lock, then the row is inserted or updated. */
    method Upsert(b: Binding, max: nat) returns (ok: bool)
      modifies this
      ensures ok == SqlAccepts(old(rows), b, max)
      ensures rows == if ok then old(rows)[KeyOf(b) := b] else old(rows)
    {
      var activeCount := 0;
      var contactExists := false;
      var todo := Rivals(rows, b);
      while todo != {}
        invariant todo <= Rivals(rows, b) && activeCount == |Rivals(rows, b)| - |todo| && rows == old(rows)
        invariant contactExists <==> KeyOf(b) in Rivals(rows, b) - todo
        decreases |todo|
      {
        var row :| row in todo;
        todo := todo - {row};
        activeCount := activeCount + 1;
        contactExists := contactExists || row.contact == b.contact;
        assert row.contact == b.contact <==> row == KeyOf(b);
      }
      if !contactExists && activeCount >= max {
        return false;
      }
      rows := rows[KeyOf(b) := b];
      return true;
    }
  }

  method CountActive(t: Table, b: Binding) returns (n: nat)
    ensures n == |Rivals(t, b)|
  {
    n := 0;
    var todo := t.Keys;
    ghost var counted: set<Key> := {};
    while todo != {}
      invariant todo <= t.Keys && n == |counted|
      invariant counted == (set k | k in t.Keys - todo && IsActive(t, k, b.tenant, b.aor, b.updatedAt))
      decreases |todo|
    {
      var key :| key in todo;
      todo := todo - {key};
      if key.tenant == b.tenant && key.aor == b.aor && t[key].expiresAt > b.updatedAt {
        n := n + 1;
        counted := counted + {key};
      }
    }
    assert counted == Rivals(t, b);
  }

  // ---- Runs ----

  datatype Operation =
    | Upsert(binding: Binding)
    | Delete(key: Key)
    | DeleteAll(tenant: string, aor: string)
    | DeleteExpired

  /**
   An operation in the order the store serves it, with the clock reading taken for it before; deletions read none and
   may take any.
   */
  datatype Timed = Timed(at: int, op: Operation)

  function Stored(t: Table, o: Timed, accepts: bool): Table {
    match o.op
    case Upsert(b) => if accepts then t[KeyOf(b) := b] else t
    case Delete(key) => t - {key}
    case DeleteAll(tenant, aor) => Without(t, tenant, aor)
    case DeleteExpired => Unexpired(t, o.at)
  }

  type Limits = (string, string) -> nat

  predicate SqlDecides(t: Table, o: Timed, limit: Limits) {
    o.op.Upsert? ==> SqlAccepts(t, o.op.binding, limit(o.op.binding.tenant, o.op.binding.aor))
  }

  predicate MemoryDecides(t: Table, o: Timed, limit: Limits) {
    o.op.Upsert? ==> MemoryAccepts(t, o.op.binding, limit(o.op.binding.tenant, o.op.binding.aor))
  }

  predicate RevivesAt(t: Table, o: Timed, limit: Limits) {
    o.op.Upsert? && Revives(t, o.op.binding, limit(o.op.binding.tenant, o.op.binding.aor))
  }

  function SqlRun(ops: seq<Timed>, limit: Limits): Table {
    if ops == [] then map[]
    else
      var k := |ops| - 1;
      var t := SqlRun(ops[..k], limit);
      Stored(t, ops[k], SqlDecides(t, ops[k], limit))
  }

  function MemoryRun(ops: seq<Timed>, limit: Limits): Table {
    if ops == [] then map[]
    else
      var k := |ops| - 1;
      var t := MemoryRun(ops[..k], limit);
      Stored(t, ops[k], MemoryDecides(t, ops[k], limit))
  }

  /** Bindings carry their own reading and expire after it. */
  ghost predicate Stamped(ops: seq<Timed>) {
    forall i :: 0 <= i < |ops| && ops[i].op.Upsert? ==>
      ops[i].op.binding.updatedAt == ops[i].at < ops[i].op.binding.expiresAt
  }

  /** The store serves operations in the order of their readings. */
  ghost predicate InOrder(ops: seq<Timed>) { forall i, j :: 0 <= i < j < |ops| ==> ops[i].at <= ops[j].at }

  /** The latest reading served. */
  function Latest(ops: seq<Timed>): (h: int)
    requires ops != []
    ensures forall i :: 0 <= i < |ops| ==> ops[i].at <= h
    ensures exists i :: 0 <= i < |ops| && ops[i].at == h
  {
    var k := |ops| - 1;
    if k == 0 then ops[0].at
    else
      var h := Latest(ops[..k]);
      assert forall i :: 0 <= i < k ==> ops[i] == ops[..k][i];
      if h < ops[k].at then ops[k].at else h
  }

  /** No address of record has more active bindings than its limit, now or later. */
  ghost predicate WithinLimit(t: Table, now: int, limit: Limits) {
    forall tenant, aor :: |ActiveKeys(t, tenant, aor, now)| <= limit(tenant, aor)
  }

  lemma {:induction false} SubsetSize<T>(a: set<T>, b: set<T>)
    requires a <= b
    ensures |a| <= |b|
    decreases |a|
  {
    if a != {} {
      var x :| x in a;
      SubsetSize(a - {x}, b - {x});
    }
  }

  lemma LaterIsWithin(t: Table, now: int, later: int, limit: Limits)
    requires WithinLimit(t, now, limit) && now <= later
    ensures WithinLimit(t, later, limit)
  {
    forall tenant, aor ensures |ActiveKeys(t, tenant, aor, later)| <= limit(tenant, aor) {
      SubsetSize(ActiveKeys(t, tenant, aor, later), ActiveKeys(t, tenant, aor, now));
    }
  }

  lemma FewerIsWithin(t: Table, t': Table, now: int, limit: Limits)
    requires WithinLimit(t, now, limit) && t'.Keys <= t.Keys && forall k :: k in t' ==> t'[k] == t[k]
    ensures WithinLimit(t', now, limit)
  {
    forall tenant, aor ensures |ActiveKeys(t', tenant, aor, now)| <= limit(tenant, aor) {
      SubsetSize(ActiveKeys(t', tenant, aor, now), ActiveKeys(t, tenant, aor, now));
    }
  }

  /** b is active at h, its key was not, and others fill the limit at h. */
  predicate Overfills(t: Table, b: Binding, h: int, max: nat) {
    var active := ActiveKeys(t, b.tenant, b.aor, h);
    KeyOf(b) !in active && |active| >= max && b.expiresAt > h
  }

  /** Writing b sets its own key among the active ones of its address of record and touches no other. */
  lemma UpsertActive(t: Table, b: Binding, tenant: string, aor: string, h: int)
    ensures ActiveKeys(t[KeyOf(b) := b], tenant, aor, h) ==
      if tenant != b.tenant || aor != b.aor then ActiveKeys(t, tenant, aor, h)
      else if b.expiresAt > h then ActiveKeys(t, tenant, aor, h) + {KeyOf(b)}
        else ActiveKeys(t, tenant, aor, h) - {KeyOf(b)}
  {
  }

  lemma UpsertSize(t: Table, b: Binding, tenant: string, aor: string, h: int, limit: Limits)
    requires WithinLimit(t, h, limit)
    ensures |ActiveKeys(t[KeyOf(b) := b], tenant, aor, h)| <= limit(tenant, aor) <==>
      !(tenant == b.tenant && aor == b.aor && Overfills(t, b, h, limit(tenant, aor)))
  {
    var active := ActiveKeys(t, tenant, aor, h);
    UpsertActive(t, b, tenant, aor, h);
    assert |active| <= limit(tenant, aor);
    if KeyOf(b) in active {
      assert active + {KeyOf(b)} == active;
    }
    SubsetSize(active - {KeyOf(b)}, active);
  }

  /** Writing b keeps the limits at time h exactly when it does not overfill its own. */
  lemma UpsertWithinIff(t: Table, b: Binding, h: int, limit: Limits)
    requires WithinLimit(t, h, limit)
    ensures WithinLimit(t[KeyOf(b) := b], h, limit) <==> !Overfills(t, b, h, limit(b.tenant, b.aor))
  {
    UpsertSize(t, b, b.tenant, b.aor, h, limit);
    if !Overfills(t, b, h, limit(b.tenant, b.aor)) {
      forall tenant, aor ensures |ActiveKeys(t[KeyOf(b) := b], tenant, aor, h)| <= limit(tenant, aor) {
        UpsertSize(t, b, tenant, aor, h, limit);
      }
    }
  }

  /** At its own reading the durable rule refuses exactly what would overfill. */
  lemma SqlAcceptsIff(t: Table, b: Binding, limit: Limits)
    requires b.updatedAt < b.expiresAt && WithinLimit(t, b.updatedAt, limit)
    ensures SqlAccepts(t, b, limit(b.tenant, b.aor)) <==> WithinLimit(t[KeyOf(b) := b], b.updatedAt, limit)
  {
    UpsertWithinIff(t, b, b.updatedAt, limit);
  }

  /** A contact admitted because there was room at its reading overfills at no later time. */
  lemma RoomIsRoomLater(t: Table, b: Binding, h: int, max: nat)
    requires b.updatedAt <= h && |Rivals(t, b)| < max
    ensures !Overfills(t, b, h, max)
  {
    SubsetSize(ActiveKeys(t, b.tenant, b.aor, h), Rivals(t, b));
  }

  /** The durable rule refreshes a contact active at its own reading that overfills at h. */
  predicate Overtaken(t: Table, o: Timed, h: int, limit: Limits) {
    && o.op.Upsert? && KeyOf(o.op.binding) in Rivals(t, o.op.binding)
    && Overfills(t, o.op.binding, h, limit(o.op.binding.tenant, o.op.binding.aor))
  }

  /** The memory rule refreshes any stored contact that overfills at h. */
  predicate Revived(t: Table, o: Timed, h: int, limit: Limits) {
    && o.op.Upsert? && KeyOf(o.op.binding) in t
    && Overfills(t, o.op.binding, h, limit(o.op.binding.tenant, o.op.binding.aor))
  }

  lemma StoredWithin(t: Table, o: Timed, h: int, limit: Limits)
    requires WithinLimit(t, h, limit) && o.at <= h
    requires o.op.Upsert? ==> o.op.binding.updatedAt == o.at
    ensures WithinLimit(Stored(t, o, SqlDecides(t, o, limit)), h, limit) <==> !Overtaken(t, o, h, limit)
    ensures WithinLimit(Stored(t, o, MemoryDecides(t, o, limit)), h, limit) <==> !Revived(t, o, h, limit)
  {
    if o.op.Upsert? {
      var b := o.op.binding;
      UpsertWithinIff(t, b, h, limit);
      if |Rivals(t, b)| < limit(b.tenant, b.aor) {
        RoomIsRoomLater(t, b, h, limit(b.tenant, b.aor));
      }
    } else {
      FewerIsWithin(t, Stored(t, o, true), h, limit);
    }
  }

  // ---- The durable store's limit ----

  /** After operation i the limits hold at the latest reading served, and so at every later time. */
  ghost predicate WithinAt(t: Table, ops: seq<Timed>, limit: Limits, i: int)
    requires 0 <= i < |ops|
  {
    WithinLimit(t, Latest(ops[..i + 1]), limit)
  }

  ghost predicate SqlWithinAt(ops: seq<Timed>, limit: Limits, i: int)
    requires 0 <= i < |ops|
  {
    WithinAt(SqlRun(ops[..i + 1], limit), ops, limit, i)
  }

  /**
   Operation i refreshes a contact active at its own reading but expired at one served before it, while the limit is
   full.
   */
  ghost predicate OvertakenAt(ops: seq<Timed>, limit: Limits, i: int)
    requires 0 <= i < |ops|
  {
    Overtaken(SqlRun(ops[..i], limit), ops[i], Latest(ops[..i + 1]), limit)
  }

  lemma EmptyWithin(now: int, limit: Limits)
    ensures WithinLimit(map[], now, limit)
  {
    forall tenant, aor ensures |ActiveKeys(map[], tenant, aor, now)| <= limit(tenant, aor) {
      assert ActiveKeys(map[], tenant, aor, now) == {};
    }
  }

  lemma {:induction false} LatestGrows(ops: seq<Timed>, i: nat)
    requires 0 < i < |ops|
    ensures Latest(ops[..i]) <= Latest(ops[..i + 1]) && ops[i].at <= Latest(ops[..i + 1])
  {
    assert ops[..i + 1][..i] == ops[..i] && ops[..i + 1][i] == ops[i];
  }

  /** What operation i meets: a table within the limits at the latest reading including its own. */
  lemma {:induction false} WithinBefore(t: Table, ops: seq<Timed>, limit: Limits, i: nat)
    requires i < |ops| && if i == 0 then t == map[] else WithinAt(t, ops, limit, i - 1)
    ensures WithinLimit(t, Latest(ops[..i + 1]), limit) && ops[i].at <= Latest(ops[..i + 1])
  {
    if i == 0 {
      assert ops[..1][0] == ops[0];
      EmptyWithin(Latest(ops[..1]), limit);
    } else {
      LatestGrows(ops, i);
      LaterIsWithin(t, Latest(ops[..i]), Latest(ops[..i + 1]), limit);
    }
  }

  lemma {:induction false} SqlWithinNext(ops: seq<Timed>, limit: Limits, i: nat)
    requires Stamped(ops) && i < |ops| && (i > 0 ==> SqlWithinAt(ops, limit, i - 1))
    ensures SqlWithinAt(ops, limit, i) <==> !OvertakenAt(ops, limit, i)
  {
    var t := SqlRun(ops[..i], limit);
    WithinBefore(t, ops, limit, i);
    StoredWithin(t, ops[i], Latest(ops[..i + 1]), limit);
    assert ops[..i + 1][..i] == ops[..i];
  }

  lemma {:induction false} SqlWithinPrefix(ops: seq<Timed>, limit: Limits, i: nat)
    requires Stamped(ops) && i < |ops| && forall j :: 0 <= j < |ops| ==> !OvertakenAt(ops, limit, j)
    ensures SqlWithinAt(ops, limit, i)
  {
    if i > 0 {
      SqlWithinPrefix(ops, limit, i - 1);
    }
    SqlWithinNext(ops, limit, i);
    assert !OvertakenAt(ops, limit, i);
  }

  /** In any order of service the durable rule keeps the limits after every operation exactly when none is overtaken. */
  lemma {:induction false} SqlWithinIff(ops: seq<Timed>, limit: Limits)
    requires Stamped(ops)
    ensures (forall i :: 0 <= i < |ops| ==> SqlWithinAt(ops, limit, i)) <==>
      (forall i :: 0 <= i < |ops| ==> !OvertakenAt(ops, limit, i))
  {
    if forall i :: 0 <= i < |ops| ==> SqlWithinAt(ops, limit, i) {
      forall i | 0 <= i < |ops| ensures !OvertakenAt(ops, limit, i) {
        assert SqlWithinAt(ops, limit, i);
        SqlWithinNext(ops, limit, i);
      }
    }
    if forall i :: 0 <= i < |ops| ==> !OvertakenAt(ops, limit, i) {
      forall i | 0 <= i < |ops| ensures SqlWithinAt(ops, limit, i) {
        SqlWithinPrefix(ops, limit, i);
      }
    }
  }

  lemma {:induction false} InOrderLatest(ops: seq<Timed>, i: nat)
    requires InOrder(ops) && i < |ops|
    ensures Latest(ops[..i + 1]) == ops[i].at
  {
    assert ops[..i + 1][i] == ops[i];
  }

  /**
   Served in the order of their readings, operations are never overtaken: the limits hold throughout and from then on.
   */
  lemma {:induction false} SqlWithinLimit(ops: seq<Timed>, limit: Limits, i: nat, now: int)
    requires Stamped(ops) && InOrder(ops) && i < |ops| && ops[i].at <= now
    ensures WithinLimit(SqlRun(ops[..i + 1], limit), now, limit)
  {
    forall j | 0 <= j < |ops| ensures !OvertakenAt(ops, limit, j) {
      InOrderLatest(ops, j);
    }
    SqlWithinPrefix(ops, limit, i);
    InOrderLatest(ops, i);
    LaterIsWithin(SqlRun(ops[..i + 1], limit), ops[i].at, now, limit);
  }

  /**
   On the same table the two stores decide differently exactly when a stored, expired binding is revived over the
   limit.
   */
  lemma DecisionsDifferIff(t: Table, o: Timed, limit: Limits)
    ensures SqlDecides(t, o, limit) != MemoryDecides(t, o, limit) <==> RevivesAt(t, o, limit)
  {
  }

  /** Operation i of a run revives an expired binding in the durable store's table. */
  ghost predicate RevivalAt(ops: seq<Timed>, limit: Limits, i: nat)
    requires i < |ops|
  {
    RevivesAt(SqlRun(ops[..i], limit), ops[i], limit)
  }

  /** Before operation i both stores hold the same, and they decide it alike. */
  ghost predicate AgreeAt(ops: seq<Timed>, limit: Limits, i: nat)
    requires i < |ops|
  {
    var m, s := MemoryRun(ops[..i], limit), SqlRun(ops[..i], limit);
    m == s && MemoryDecides(m, ops[i], limit) == SqlDecides(s, ops[i], limit)
  }

  lemma {:induction false} SameTables(ops: seq<Timed>, limit: Limits, k: nat)
    requires k <= |ops| && forall i :: 0 <= i < k ==> !RevivalAt(ops, limit, i)
    ensures MemoryRun(ops[..k], limit) == SqlRun(ops[..k], limit)
  {
    if k > 0 {
      SameTables(ops, limit, k - 1);
      assert !RevivalAt(ops, limit, k - 1);
      DecisionsDifferIff(SqlRun(ops[..k - 1], limit), ops[k - 1], limit);
      assert ops[..k][..k - 1] == ops[..k - 1];
    }
  }

  /**
   The memory store decides and holds the same as the durable one throughout a run exactly when the run revives
   nothing.
   */
  lemma {:induction false} StoresAgreeIff(ops: seq<Timed>, limit: Limits)
    ensures (forall i :: 0 <= i < |ops| ==> AgreeAt(ops, limit, i)) <==>
      (forall i :: 0 <= i < |ops| ==> !RevivalAt(ops, limit, i))
  {
    if forall i :: 0 <= i < |ops| ==> AgreeAt(ops, limit, i) {
      forall i | 0 <= i < |ops| ensures !RevivalAt(ops, limit, i) {
        assert AgreeAt(ops, limit, i);
        DecisionsDifferIff(SqlRun(ops[..i], limit), ops[i], limit);
      }
    }
    if forall i :: 0 <= i < |ops| ==> !RevivalAt(ops, limit, i) {
      forall i | 0 <= i < |ops| ensures AgreeAt(ops, limit, i) {
        SameTables(ops, limit, i);
        assert !RevivalAt(ops, limit, i);
        DecisionsDifferIff(SqlRun(ops[..i], limit), ops[i], limit);
      }
    }
  }

  // ---- The memory store's limit ----

  ghost predicate MemoryWithinAt(ops: seq<Timed>, limit: Limits, i: int)
    requires 0 <= i < |ops|
  {
    WithinAt(MemoryRun(ops[..i + 1], limit), ops, limit, i)
  }

  /** Operation i refreshes a stored contact that has expired by the latest reading, while the limit is full. */
  ghost predicate RevivedAt(ops: seq<Timed>, limit: Limits, i: int)
    requires 0 <= i < |ops|
  {
    Revived(MemoryRun(ops[..i], limit), ops[i], Latest(ops[..i + 1]), limit)
  }

  lemma {:induction false} MemoryWithinNext(ops: seq<Timed>, limit: Limits, i: nat)
    requires Stamped(ops) && i < |ops| && (i > 0 ==> MemoryWithinAt(ops, limit, i - 1))
    ensures MemoryWithinAt(ops, limit, i) <==> !RevivedAt(ops, limit, i)
  {
    var t := MemoryRun(ops[..i], limit);
    WithinBefore(t, ops, limit, i);
    StoredWithin(t, ops[i], Latest(ops[..i + 1]), limit);
    assert ops[..i + 1][..i] == ops[..i];
  }

  lemma {:induction false} MemoryWithinPrefix(ops: seq<Timed>, limit: Limits, i: nat)
    requires Stamped(ops) && i < |ops| && forall j :: 0 <= j < |ops| ==> !RevivedAt(ops, limit, j)
    ensures MemoryWithinAt(ops, limit, i)
  {
    if i > 0 {
      MemoryWithinPrefix(ops, limit, i - 1);
    }
    MemoryWithinNext(ops, limit, i);
    assert !RevivedAt(ops, limit, i);
  }

  /**
   In any order of service the memory store keeps the limits after every operation exactly when none revives a contact
   over them.
   */
  lemma {:induction false} MemoryWithinIff(ops: seq<Timed>, limit: Limits)
    requires Stamped(ops)
    ensures (forall i :: 0 <= i < |ops| ==> MemoryWithinAt(ops, limit, i)) <==>
      (forall i :: 0 <= i < |ops| ==> !RevivedAt(ops, limit, i))
  {
    if forall i :: 0 <= i < |ops| ==> MemoryWithinAt(ops, limit, i) {
      forall i | 0 <= i < |ops| ensures !RevivedAt(ops, limit, i) {
        assert MemoryWithinAt(ops, limit, i);
        MemoryWithinNext(ops, limit, i);
      }
    }
    if forall i :: 0 <= i < |ops| ==> !RevivedAt(ops, limit, i) {
      forall i | 0 <= i < |ops| ensures MemoryWithinAt(ops, limit, i) {
        MemoryWithinPrefix(ops, limit, i);
      }
    }
  }

  // ---- Runs over the limit ----

  function Contact(contact: string, at: int, expiresAt: int): Timed {
    Timed(at, Upsert(Binding(contact, "t", "u", contact, "", expiresAt, at)))
  }

  function Held(a: Timed): Table
    requires a.op.Upsert?
  {
    map[KeyOf(a.op.binding) := a.op.binding]
  }

  lemma Runs(a: Timed, b: Timed, c: Timed, limit: Limits)
    ensures var ops := [a, b, c];
      && SqlRun(ops[..2], limit) == (
           var t := Stored(map[], a, SqlDecides(map[], a, limit)); Stored(t, b, SqlDecides(t, b, limit)))
      && MemoryRun(ops[..2], limit) == (
           var t := Stored(map[], a, MemoryDecides(map[], a, limit)); Stored(t, b, MemoryDecides(t, b, limit)))
  {
    var ops := [a, b, c];
    assert ops[..2] == [a, b] && [a, b][..1] == [a] && [a][..0] == [];
    assert SqlRun([a], limit) == Stored(map[], a, SqlDecides(map[], a, limit));
    assert MemoryRun([a], limit) == Stored(map[], a, MemoryDecides(map[], a, limit));
  }

  /**
   The first two of these contacts are both stored with a limit of one, as the first has expired when the second
   comes.
   */
  lemma TwoStored(expiry: int, at: int, limit: Limits)
    requires limit("t", "u") == 1 && 0 < expiry <= at
    ensures var a, b := Contact("a", 0, expiry), Contact("b", at, 100);
      && SqlDecides(map[], a, limit) && MemoryDecides(map[], a, limit)
      && Stored(map[], a, true) == Held(a) && SqlDecides(Held(a), b, limit) && MemoryDecides(Held(a), b, limit)
  {
    var a, b := Contact("a", 0, expiry), Contact("b", at, 100);
    assert Rivals(map[], a.op.binding) == {} && Rivals(Held(a), b.op.binding) == {};
  }

  /** Served in order, the memory store takes an expired contact back beside the one that replaced it. */
  lemma MemoryExceedsLimit(limit: Limits)
    requires limit("t", "u") == 1
    ensures var ops := [Contact("a", 0, 10), Contact("b", 20, 100), Contact("a", 21, 100)];
      Stamped(ops) && InOrder(ops) && RevivedAt(ops, limit, 2)
      && exists i :: 0 <= i < 3 && !MemoryWithinAt(ops, limit, i)
  {
    var a, b, c := Contact("a", 0, 10), Contact("b", 20, 100), Contact("a", 21, 100);
    var ops := [a, b, c];
    Runs(a, b, c, limit);
    TwoStored(10, 20, limit);
    InOrderLatest(ops, 2);
    var t := Held(a)[KeyOf(b.op.binding) := b.op.binding];
    assert ActiveKeys(t, "t", "u", 21) == {KeyOf(b.op.binding)};
    assert RevivedAt(ops, limit, 2);
    MemoryWithinIff(ops, limit);
  }

  /**
   A refresh that read the clock before its contact expired but is served after the replacement exceeds the limit in
   either store.
   */
  lemma SqlExceedsLimit(limit: Limits)
    requires limit("t", "u") == 1
    ensures var ops := [Contact("a", 0, 21), Contact("b", 21, 100), Contact("a", 20, 100)];
      Stamped(ops) && OvertakenAt(ops, limit, 2) && exists i :: 0 <= i < 3 && !SqlWithinAt(ops, limit, i)
  {
    var a, b, c := Contact("a", 0, 21), Contact("b", 21, 100), Contact("a", 20, 100);
    var ops := [a, b, c];
    Runs(a, b, c, limit);
    TwoStored(21, 21, limit);
    assert Latest(ops[..3]) == 21 by {
      assert ops[..3] == ops && ops[1].at == 21;
    }
    var t := Held(a)[KeyOf(b.op.binding) := b.op.binding];
    assert ActiveKeys(t, "t", "u", 21) == {KeyOf(b.op.binding)};
    assert KeyOf(c.op.binding) in Rivals(t, c.op.binding);
    assert OvertakenAt(ops, limit, 2);
    SqlWithinIff(ops, limit);
  }

  // ---- The manager ----

  datatype Request = Request(
    tenant: string, aor: string, contact: string, route: string, transportKnown: bool, receivedValid: bool,
    qInRange: bool,
    expires: int, maxBindings: int)

  datatype ManagerCall = Apply(request: Request, id: string) | Expire

  /** What a call asks of the store after reading `now`, if it is acceptable. `id` is the generated identifier. */
  function Planned(c: ManagerCall, now: int): Option<Timed> {
    if c.Expire? then Some(Timed(now, DeleteExpired))
    else
      var r := c.request;
      if r.expires < 0 then None
      else if r.expires == 0 then
        Some(Timed(now, if r.contact == "*" then DeleteAll(r.tenant, r.aor)
          else Delete(Key(r.tenant, r.aor, r.contact))))
      else if r.maxBindings <= 0 || !r.receivedValid then None
      else if c.id == "" || r.tenant == "" || r.aor == "" || r.contact == "" || r.route == "" || !r.transportKnown
              || !r.qInRange then None
      else Some(Timed(now, Upsert(Binding(c.id, r.tenant, r.aor, r.contact, r.route, now + r.expires, now))))
  }

  /** A request the manager refuses. */
  ghost predicate IsUnacceptable(r: Request, id: string) {
    || r.expires < 0
    || (r.expires > 0 &&
        (|| r.maxBindings < 1 || !r.receivedValid || id == "" || r.tenant == "" || r.aor == "" || r.contact == ""
         || r.route == "" || !r.transportKnown || !r.qInRange))
  }

  /**
   What an acceptable request does to a table that takes it: zero expiry removes the contact, or with "*" every contact
   of the address of record; otherwise the contact is stored and active until now plus its expiry. Nothing else changes.
   */
  lemma ApplyEffect(t: Table, r: Request, id: string, now: int)
    ensures Planned(Apply(r, id), now).None? <==> IsUnacceptable(r, id)
    ensures Planned(Apply(r, id), now).Some? ==>
      var key, t' := Key(r.tenant, r.aor, r.contact), Stored(t, Planned(Apply(r, id), now).value, true);
      && (forall k: Key :: k.tenant != r.tenant || k.aor != r.aor ==>
          (k in t' <==> k in t) && (k in t ==> t'[k] == t[k]))
      && (r.expires == 0 && r.contact == "*" ==> forall k: Key :: k in t' ==> k.tenant != r.tenant || k.aor != r.aor)
      && (r.expires > 0 || r.contact != "*" ==>
            forall k: Key :: k != key ==> (k in t' <==> k in t) && (k in t ==> t'[k] == t[k]))
      && (r.expires == 0 ==> key !in t')
      && (r.expires > 0 ==>
            && key in t' && t'[key].id == id && t'[key].route == r.route && t'[key].updatedAt == now
            && forall h :: IsActive(t', key, r.tenant, r.aor, h) <==> h < now + r.expires)
  {
  }

  /** Expire removes exactly the contacts that have expired when the clock is read. */
  lemma ExpireEffect(t: Table, now: int)
    ensures Planned(Expire, now).Some?
    ensures var t' := Stored(t, Planned(Expire, now).value, true);
      && (forall k :: k in t' <==> k in t && t[k].expiresAt > now) && forall k :: k in t' ==> t'[k] == t[k]
  {
  }

  /** ops is what the store serves of these calls, each with its own clock reading. */
  ghost predicate PlannedAll(calls: seq<ManagerCall>, nows: seq<int>, ops: seq<Timed>, limit: Limits) {
    && |calls| == |nows| == |ops|
    && (forall i :: 0 <= i < |ops| ==> Planned(calls[i], nows[i]) == Some(ops[i]))
    && forall i :: 0 <= i < |ops| && ops[i].op.Upsert? ==>
         calls[i].Apply? && limit(calls[i].request.tenant, calls[i].request.aor) == calls[i].request.maxBindings
  }

  lemma {:induction false} PlanIsStamped(calls: seq<ManagerCall>, nows: seq<int>, ops: seq<Timed>, limit: Limits)
    requires PlannedAll(calls, nows, ops, limit)
    ensures Stamped(ops) && forall i :: 0 <= i < |ops| ==> ops[i].at == nows[i]
  {
    forall i | 0 <= i < |ops|
      ensures ops[i].at == nows[i]
      ensures ops[i].op.Upsert? ==> ops[i].op.binding.updatedAt == ops[i].at < ops[i].op.binding.expiresAt
    {
      assert Planned(calls[i], nows[i]) == Some(ops[i]);
    }
  }

  /**
   Whatever concurrent calls ask, the durable store keeps the limits exactly when no refresh is overtaken and the
   memory store exactly when none revives a contact; calls made one at a time under a clock that never goes back are
   never overtaken.
   */
  lemma {:induction false} ManagerWithinIff(calls: seq<ManagerCall>, nows: seq<int>, ops: seq<Timed>, limit: Limits)
    requires PlannedAll(calls, nows, ops, limit)
    ensures (forall i :: 0 <= i < |ops| ==> SqlWithinAt(ops, limit, i)) <==>
      (forall i :: 0 <= i < |ops| ==> !OvertakenAt(ops, limit, i))
    ensures (forall i :: 0 <= i < |ops| ==> MemoryWithinAt(ops, limit, i)) <==>
      (forall i :: 0 <= i < |ops| ==> !RevivedAt(ops, limit, i))
    ensures (forall i, j :: 0 <= i < j < |nows| ==> nows[i] <= nows[j]) ==>
      forall i :: 0 <= i < |ops| ==> SqlWithinAt(ops, limit, i)
  {
    PlanIsStamped(calls, nows, ops, limit);
    SqlWithinIff(ops, limit);
    MemoryWithinIff(ops, limit);
    if forall i, j :: 0 <= i < j < |nows| ==> nows[i] <= nows[j] {
      forall i | 0 <= i < |ops| ensures SqlWithinAt(ops, limit, i) {
        InOrderLatest(ops, i);
        SqlWithinLimit(ops, limit, i, ops[i].at);
      }
    }
  }
}
