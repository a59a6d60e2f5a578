/**
 Per-tenant wrappers over one shared key-value store.  Every key a tenant uses is stored under
 `tenant:{id}:{key}`; isolation rests on two tenants never meeting under one stored key.
 */
module TenantNamespace {
  import opened Prelude

  type Base = map<string, seq<bv8>>

  datatype Op =
    | Put(key: string, value: seq<bv8>)
    | Delete(key: string)
    | Get(key: string)

  /** An operation issued through the wrapper of one tenant. */
  datatype Action = Action(tenant: string, op: Op)

  function TenantKey(tenant: string, key: string): string {
    "tenant:" + tenant + ":" + key
  }

  function Apply(base: Base, a: Action): Base {
    match a.op
    case Put(key, value) => base[TenantKey(a.tenant, key) := value]
    case Delete(key) => base - {TenantKey(a.tenant, key)}
    case Get(_) => base
  }

  function Lookup<K, V>(m: map<K, V>, k: K): Option<V> {
    if k in m then Some(m[k]) else None
  }

  /** What a `Get` answers; the other operations answer nothing. */
  function Answer(base: Base, a: Action): Option<seq<bv8>> {
    match a.op
    case Get(key) => Lookup(base, TenantKey(a.tenant, key))
    case _ => None
  }

  // ----- The reference: one private map per tenant -----

  function PrivateApply(mine: Base, op: Op): Base {
    match op
    case Put(key, value) => mine[key := value]
    case Delete(key) => mine - {key}
    case Get(_) => mine
  }

  function PrivateAnswer(mine: Base, op: Op): Option<seq<bv8>> {
    match op
    case Get(key) => Lookup(mine, key)
    case _ => None
  }

  function BaseAfter(actions: seq<Action>): Base {
    if actions == [] then map[]
    else Apply(BaseAfter(actions[..|actions| - 1]), actions[|actions| - 1])
  }

  /** The tenant's private map after the run: it hears only of the tenant's own actions. */
  function PrivateAfter(actions: seq<Action>, tenant: string): Base {
    if actions == [] then map[]
    else
      var last := actions[|actions| - 1];
      var before := PrivateAfter(actions[..|actions| - 1], tenant);
      if last.tenant == tenant then PrivateApply(before, last.op) else before
  }

  // ----- When stored keys can meet -----

  /** One tenant id continues another past a colon: `a` and `a:b`, or the same id. */
  predicate Nested(a: string, b: string) {
    a + ":" <= b + ":" || b + ":" <= a + ":"
  }

  predicate ColonFree(id: string) {
    ':' !in id
  }

  /** Two tenants can meet under one stored key exactly when one id continues the other past a colon. */
  lemma MeetIff(a: string, b: string)
    ensures (exists k, l :: TenantKey(a, k) == TenantKey(b, l)) <==> Nested(a, b)
  {
    if Nested(a, b) {
      if a + ":" <= b + ":" {
        var k := (b + ":")[|a| + 1..];
        assert a + ":" + k == b + ":";
        assert TenantKey(a, k) == TenantKey(b, "") by { PrefixedKeys(a, k, b, ""); }
      } else {
        var l := (a + ":")[|b| + 1..];
        assert b + ":" + l == a + ":";
        assert TenantKey(a, "") == TenantKey(b, l) by { PrefixedKeys(b, l, a, ""); }
      }
    }
    forall k, l | TenantKey(a, k) == TenantKey(b, l)
      ensures Nested(a, b)
    {
      PrefixedKeys(a, k, b, l);
      var whole := a + ":" + k;
      assert (a + ":") == whole[..|a| + 1];
      assert (b + ":") == whole[..|b| + 1];
    }
  }

  lemma PrefixedKeys(a: string, k: string, b: string, l: string)
    ensures TenantKey(a, k) == TenantKey(b, l) <==> a + ":" + k == b + ":" + l
  {
    assert TenantKey(a, k) == "tenant:" + (a + ":" + k);
    assert TenantKey(b, l) == "tenant:" + (b + ":" + l);
    assert TenantKey(a, k)[7..] == a + ":" + k;
    assert TenantKey(b, l)[7..] == b + ":" + l;
  }

  lemma ColonFreeIdsAreApart(a: string, b: string)
    requires ColonFree(a) && ColonFree(b) && a != b
    ensures !Nested(a, b)
  {
    if a + ":" <= b + ":" {
      ColonAtEnd(a, b);
    } else if b + ":" <= a + ":" {
      ColonAtEnd(b, a);
    }
  }

  lemma ColonAtEnd(a: string, b: string)
    requires ColonFree(b) && a + ":" <= b + ":"
    ensures a == b
  {
    assert (b + ":")[|a|] == (a + ":")[|a|] == ':';
    assert a == (b + ":")[..|a|] == b[..|a|];
  }

  /** The stored key determines tenant and key, for colon-free tenants. */
  lemma KeyIsInjective(a: string, k: string, b: string, l: string)
    requires ColonFree(a) && ColonFree(b) && TenantKey(a, k) == TenantKey(b, l)
    ensures a == b && k == l
  {
    if a != b {
      ColonFreeIdsAreApart(a, b);
      MeetIff(a, b);
    } else {
      PrefixedKeys(a, k, b, l);
      assert (a + ":" + k)[|a| + 1..] == k && (b + ":" + l)[|b| + 1..] == l;
    }
  }

  // ----- Isolation -----

  ghost predicate Tenants(actions: seq<Action>, tenant: string) {
    forall i :: 0 <= i < |actions| ==> actions[i].tenant == tenant || !Nested(actions[i].tenant, tenant)
  }

  /** The tenant's part of the base, read through its wrapper. */
  ghost predicate Mirrors(base: Base, mine: Base, tenant: string) {
    forall key :: Lookup(base, TenantKey(tenant, key)) == Lookup(mine, key)
  }

  lemma SameTenantKeys(tenant: string, k: string, l: string)
    ensures TenantKey(tenant, k) == TenantKey(tenant, l) <==> k == l
  {
    PrefixedKeys(tenant, k, tenant, l);
    assert (tenant + ":" + k)[|tenant| + 1..] == k && (tenant + ":" + l)[|tenant| + 1..] == l;
  }

  lemma ApplyMirrors(base: Base, mine: Base, tenant: string, a: Action)
    requires Mirrors(base, mine, tenant)
    requires a.tenant == tenant || !Nested(a.tenant, tenant)
    ensures Mirrors(Apply(base, a), if a.tenant == tenant then PrivateApply(mine, a.op) else mine, tenant)
  {
    hide TenantKey, Nested;
    MeetIff(a.tenant, tenant);
    forall key
      ensures Lookup(Apply(base, a), TenantKey(tenant, key))
              == Lookup(if a.tenant == tenant then PrivateApply(mine, a.op) else mine, key)
    {
      assert Lookup(base, TenantKey(tenant, key)) == Lookup(mine, key);
      SameTenantKeys(tenant, a.op.key, key);
    }
  }

  /**
   Any interleaving of tenants over the shared base behaves, for each tenant, as if it had its own
   private map, provided no other tenant's id continues its id past a colon or the other way round.
   */
  lemma {:induction false} Isolation(actions: seq<Action>, tenant: string)
    requires Tenants(actions, tenant)
    ensures Mirrors(BaseAfter(actions), PrivateAfter(actions, tenant), tenant)
    decreases |actions|
  {
    if actions != [] {
      var n := |actions| - 1;
      Isolation(actions[..n], tenant);
      ApplyMirrors(BaseAfter(actions[..n]), PrivateAfter(actions[..n], tenant), tenant, actions[n]);
    }
  }

  ghost predicate Isolated(tenants: set<string>) {
    forall actions: seq<Action>, i: nat ::
      (forall j :: 0 <= j < |actions| ==> actions[j].tenant in tenants) && i < |actions| ==>
        Answer(BaseAfter(actions[..i]), actions[i])
        == PrivateAnswer(PrivateAfter(actions[..i], actions[i].tenant), actions[i].op)
  }

  /** Every read of every run is answered from the tenant's own past exactly when no two tenants' ids are nested. */
  lemma IsolatedIff(tenants: set<string>)
    ensures Isolated(tenants) <==>
            forall a, b :: a in tenants && b in tenants && a != b ==> !Nested(a, b)
  {
    if forall a, b :: a in tenants && b in tenants && a != b ==> !Nested(a, b) {
      forall actions: seq<Action>, i: nat |
        (forall j :: 0 <= j < |actions| ==> actions[j].tenant in tenants) && i < |actions|
        ensures Answer(BaseAfter(actions[..i]), actions[i])
                == PrivateAnswer(PrivateAfter(actions[..i], actions[i].tenant), actions[i].op)
      {
        hide TenantKey, Nested;
        Isolation(actions[..i], actions[i].tenant);
      }
    } else {
      var a, b :| a in tenants && b in tenants && a != b && Nested(a, b);
      MeetIff(a, b);
      var k, l :| TenantKey(a, k) == TenantKey(b, l);
      NestedTenantsMix(a, k, b, l);
      var actions := [Action(a, Put(k, [])), Action(b, Get(l))];
      assert actions[..1] == [actions[0]];
    }
  }

  /** One tenant writes, the other reads it back under its own key. */
  lemma NestedTenantsMix(a: string, k: string, b: string, l: string)
    requires a != b && TenantKey(a, k) == TenantKey(b, l)
    ensures Answer(BaseAfter([Action(a, Put(k, []))]), Action(b, Get(l))) == Some([])
    ensures PrivateAnswer(PrivateAfter([Action(a, Put(k, []))], b), Get(l)) == None
  {
    hide TenantKey;
    var w := Action(a, Put(k, []));
    assert [w][..0] == [];
  }

  lemma ColonFreeTenantsAreIsolated(tenants: set<string>)
    requires forall id :: id in tenants ==> ColonFree(id)
    ensures Isolated(tenants)
  {
    forall a, b | a in tenants && b in tenants && a != b
      ensures !Nested(a, b)
    {
      ColonFreeIdsAreApart(a, b);
    }
    IsolatedIff(tenants);
  }

  // ----- Listing -----

  /** The base's own listing: the stored keys that start with a prefix. */
  function Listing(base: Base, prefix: string): set<string> {
    set k | k in base && prefix <= k
  }

  /** A tenant's listing is exactly its own keys with the asked prefix, in their stored form. */
  lemma ListingIsOwnKeys(actions: seq<Action>, tenant: string, prefix: string)
    requires Tenants(actions, tenant)
    ensures forall stored :: stored in Listing(BaseAfter(actions), TenantKey(tenant, prefix)) <==>
              exists key :: stored == TenantKey(tenant, key) && key in PrivateAfter(actions, tenant) && prefix <= key
  {
    var base, mine := BaseAfter(actions), PrivateAfter(actions, tenant);
    Isolation(actions, tenant);
    hide BaseAfter, PrivateAfter;
    forall stored
      ensures stored in Listing(base, TenantKey(tenant, prefix)) <==>
              exists key :: stored == TenantKey(tenant, key) && key in mine && prefix <= key
    {
      if stored in Listing(base, TenantKey(tenant, prefix)) {
        var n := |TenantKey(tenant, "")|;
        var key := stored[n..];
        assert TenantKey(tenant, "") + prefix == TenantKey(tenant, prefix);
        assert stored == TenantKey(tenant, prefix) + stored[n + |prefix|..];
        assert stored == TenantKey(tenant, key);
        assert Lookup(base, TenantKey(tenant, key)) == Lookup(mine, key);
        assert key[..|prefix|] == prefix;
      }
      forall key | stored == TenantKey(tenant, key) && key in mine && prefix <= key
        ensures stored in Listing(base, TenantKey(tenant, prefix))
      {
        assert Lookup(base, TenantKey(tenant, key)) == Lookup(mine, key);
        assert stored == TenantKey(tenant, prefix) + key[|prefix|..];
      }
    }
  }

  // ----- The objects -----

  class KeyValueStore {
    var entries: Base

    constructor ()
      ensures entries == map[]
    {
      entries := map[];
    }
  }

  class TenantAwareCheckpointer {
    const base: KeyValueStore
    const tenantId: string

    constructor (base: KeyValueStore, tenantId: string)
      ensures this.base == base && this.tenantId == tenantId
    {
      this.base, this.tenantId := base, tenantId;
    }

    method Put(key: string, value: seq<bv8>)
      modifies base
      ensures base.entries == Apply(old(base.entries), Action(tenantId, Op.Put(key, value)))
    {
      var stored := TenantKey(tenantId, key);
      base.entries := base.entries[stored := value];
    }

    method Get(key: string) returns (value: Option<seq<bv8>>)
      ensures value == Answer(base.entries, Action(tenantId, Op.Get(key)))
    {
      var stored := TenantKey(tenantId, key);
      value := if stored in base.entries then Some(base.entries[stored]) else None;
    }

    method Delete(key: string)
      modifies base
      ensures base.entries == Apply(old(base.entries), Action(tenantId, Op.Delete(key)))
    {
      base.entries := base.entries - {TenantKey(tenantId, key)};
    }

    method List(prefix: string) returns (keys: set<string>)
      ensures keys == Listing(base.entries, TenantKey(tenantId, prefix))
    {
      keys := set k | k in base.entries && TenantKey(tenantId, prefix) <= k;
    }
  }
}
