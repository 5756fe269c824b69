/** What a scoped system can reach (ecs/internal/scoped_batch.cpp) against the footprints it is admitted with. */
module ScopedBatch {
  import opened Wrappers
  import opened HierarchySpec
  import T = EntityTableSpec
  import A = AccessScopes
  import opened SystemGraphSpec

  datatype BatchScope = BatchScope(kind: A.ScopeKind, begin: A.uint64, count: A.uint64, entities: seq<EntityReference>)

  datatype Declaration = Declaration(component: nat, mode: Mode, scope: BatchScope)

  datatype ViewEntry = ViewEntry(component: nat, entity: EntityReference, writable: bool)

  datatype ScopeError = INVALID_SCOPE | STALE_ENTITY | UNSUPPORTED_SCOPE

  // --------------------------------------------------------- declared reach

  /** A live entity that the scope names. */
  ghost predicate InScope(t: T.Table, worldId: nat, scope: BatchScope, r: EntityReference) {
    && r.worldId == worldId && T.HasEntity(t, r.identity)
    && match scope.kind
       case ENTITY | ENTITY_SET => r in scope.entities
       case CHUNK => scope.begin <= r.identity.index < scope.begin + scope.count
       case WHOLE_STORAGE | UNKNOWN => true
       case RESOURCE => false
  }

  /** The footprint scope a declaration is admitted with. */
  function AdmittedScope(scope: BatchScope): A.AccessScope {
    match scope.kind
    case ENTITY =>
      A.AccessScope(A.ENTITY, if scope.entities == [] then 0 else Coordinate(scope.entities[0]), scope.count, [])
    case ENTITY_SET =>
      A.AccessScope(A.ENTITY_SET, scope.begin, scope.count,
                    seq(|scope.entities|, k requires 0 <= k < |scope.entities| => Coordinate(scope.entities[k])))
    case _ => A.AccessScope(scope.kind, scope.begin, scope.count, [])
  }

  function Coordinate(r: EntityReference): A.uint64 {
    if r.identity.index < A.MODULUS then r.identity.index else 0
  }

  /** The footprints of a scoped system: a shared reading of the world, and one per declaration. */
  function Footprints(declarations: seq<Declaration>, world: A.DomainKey, domain: nat -> A.DomainKey):
    seq<A.AccessFootprint>
  {
    [A.AccessFootprint(world, A.AccessScope(A.WHOLE_STORAGE, 0, 0, []), A.READ)] +
    seq(|declarations|, k requires 0 <= k < |declarations| =>
          A.AccessFootprint(domain(declarations[k].component), AdmittedScope(declarations[k].scope),
                            if declarations[k].mode == WRITE then A.WRITE else A.READ))
  }

  // ------------------------------------------------------------- resolution

  /** The scope is one that resolution accepts. */
  predicate ValidScope(t: T.Table, worldId: nat, scope: BatchScope) {
    match scope.kind
    case ENTITY | ENTITY_SET =>
      && scope.begin == 0 && scope.count == 0 && scope.entities != []
      && (scope.kind == A.ENTITY ==> |scope.entities| == 1)
      && forall k :: 0 <= k < |scope.entities| ==>
           scope.entities[k].worldId == worldId && T.HasEntity(t, scope.entities[k].identity)
    case CHUNK => scope.entities == [] && scope.count > 0 && scope.begin <= A.MODULUS - 1 - scope.count
    case WHOLE_STORAGE | UNKNOWN => scope.entities == [] && scope.begin == 0 && scope.count == 0
    case RESOURCE => false
  }

  /** The live entities a scope names, or why it is refused. */
  method EntitiesOf(t: T.Table, worldId: nat, scope: BatchScope)
    returns (result: Result<seq<EntityReference>, ScopeError>)
    requires |t.entities| <= INVALID_INDEX
    ensures result.Ok? <==> ValidScope(t, worldId, scope)
    ensures result == Err(UNSUPPORTED_SCOPE) <==> scope.kind == A.RESOURCE
    ensures result == Err(STALE_ENTITY) <==>
      && scope.kind in {A.ENTITY, A.ENTITY_SET} && scope.begin == 0 && scope.count == 0 && scope.entities != []
      && (scope.kind == A.ENTITY ==> |scope.entities| == 1)
      && exists k :: 0 <= k < |scope.entities| &&
           !(scope.entities[k].worldId == worldId && T.HasEntity(t, scope.entities[k].identity))
    ensures result == Err(INVALID_SCOPE) <==>
      && scope.kind != A.RESOURCE
      && if scope.kind in {A.ENTITY, A.ENTITY_SET} then
           scope.begin > 0 || scope.count > 0 || scope.entities == [] || (scope.kind == A.ENTITY && |scope.entities| > 1)
         else
           || scope.entities != []
           || (scope.kind == A.CHUNK && (scope.count == 0 || scope.begin + scope.count >= A.MODULUS))
           || (scope.kind != A.CHUNK && (scope.begin > 0 || scope.count > 0))
    ensures result.Ok? ==> forall r :: r in result.value <==> InScope(t, worldId, scope, r)
  {
    match scope.kind
    case ENTITY | ENTITY_SET =>
      if scope.begin != 0 || scope.count != 0 || scope.entities == [] || (scope.kind == A.ENTITY && |scope.entities| != 1) {
        return Err(INVALID_SCOPE);
      }
      for k := 0 to |scope.entities|
        invariant forall j :: 0 <= j < k ==>
          scope.entities[j].worldId == worldId && T.HasEntity(t, scope.entities[j].identity)
      {
        if scope.entities[k].worldId != worldId || !T.HasEntity(t, scope.entities[k].identity) {
          return Err(STALE_ENTITY);
        }
      }
      return Ok(scope.entities);
    case CHUNK | WHOLE_STORAGE | UNKNOWN =>
      if scope.entities != [] ||
        (if scope.kind == A.CHUNK then scope.count == 0 || scope.begin > A.MODULUS - 1 - scope.count
         else scope.begin != 0 || scope.count != 0)
      {
        return Err(INVALID_SCOPE);
      }
      var found: seq<EntityReference> := [];
      for index := 0 to |t.entities|
        invariant forall r :: r in found <==> r.identity.index < index && InScope(t, worldId, scope, r)
      {
        if t.entities[index].alive &&
          (scope.kind != A.CHUNK || (index >= scope.begin && index - scope.begin < scope.count))
        {
          found := found + [EntityReference(worldId, Entity(index, t.entities[index].generation))];
        }
      }
      return Ok(found);
    case RESOURCE => return Err(UNSUPPORTED_SCOPE);
  }

  /** A component of an entity, for reading or for writing. */
  datatype Grant = Grant(component: nat, entity: EntityReference, write: bool)

  ghost predicate Grants(t: T.Table, worldId: nat, d: Declaration, g: Grant) {
    d.component == g.component && (g.write ==> d.mode == WRITE) && InScope(t, worldId, d.scope, g.entity)
  }

  /** Some of the first n declarations grants it. */
  ghost predicate Granted(t: T.Table, worldId: nat, declarations: seq<Declaration>, n: nat, g: Grant)
    requires n <= |declarations|
  {
    exists k :: 0 <= k < n && Grants(t, worldId, declarations[k], g)
  }

  ghost predicate HasEntry(entries: seq<ViewEntry>, c: nat, r: EntityReference) {
    exists i :: 0 <= i < |entries| && entries[i].component == c && entries[i].entity == r
  }

  /** The entries list each granted component of an entity once, writable if it was granted for writing. */
  ghost predicate Lists(entries: seq<ViewEntry>, granted: set<Grant>) {
    && (forall i, j :: 0 <= i < j < |entries| ==>
          entries[i].component != entries[j].component || entries[i].entity != entries[j].entity)
    && (forall e :: e in entries ==>
          && Grant(e.component, e.entity, false) in granted
          && (e.writable <==> Grant(e.component, e.entity, true) in granted))
    && (forall g :: g in granted ==> HasEntry(entries, g.component, g.entity))
  }

  /** The entry of a component of an entity, or the length if there is none. */
  method Find(entries: seq<ViewEntry>, component: nat, r: EntityReference) returns (k: nat)
    ensures k <= |entries|
    ensures k < |entries| ==> entries[k].component == component && entries[k].entity == r
    ensures k == |entries| <==> !HasEntry(entries, component, r)
  {
    k := 0;
    while k < |entries| && !(entries[k].component == component && entries[k].entity == r)
      invariant k <= |entries|
      invariant forall j :: 0 <= j < k ==> entries[j].component != component || entries[j].entity != r
    {
      k := k + 1;
    }
  }

  ghost function WithGrant(granted: set<Grant>, component: nat, r: EntityReference, write: bool): set<Grant> {
    granted + {Grant(component, r, false)} + if write then {Grant(component, r, true)} else {}
  }

  lemma EntryAdded(entries: seq<ViewEntry>, component: nat, r: EntityReference, write: bool, granted: set<Grant>)
    requires Lists(entries, granted) && !HasEntry(entries, component, r)
    ensures Lists(entries + [ViewEntry(component, r, write)], WithGrant(granted, component, r, write))
  {
    var merged := entries + [ViewEntry(component, r, write)];
    assert Grant(component, r, true) !in granted && Grant(component, r, false) !in granted;
    assert merged[|entries|].entity == r;
    forall g | g in WithGrant(granted, component, r, write)
      ensures HasEntry(merged, g.component, g.entity)
    {
      if g in granted {
        var i :| 0 <= i < |entries| && entries[i].component == g.component && entries[i].entity == g.entity;
        assert merged[i] == entries[i];
      }
    }
  }

  lemma EntryUpgraded(entries: seq<ViewEntry>, k: nat, component: nat, r: EntityReference, write: bool,
                      granted: set<Grant>)
    requires Lists(entries, granted) && k < |entries|
    requires entries[k].component == component && entries[k].entity == r
    ensures Lists(entries[k := entries[k].(writable := entries[k].writable || write)],
                  WithGrant(granted, component, r, write))
  {
    var merged := entries[k := entries[k].(writable := entries[k].writable || write)];
    assert entries[k] in entries && merged[k].entity == r;
    forall e | e in merged
      ensures Grant(e.component, e.entity, false) in WithGrant(granted, component, r, write)
      ensures e.writable <==> Grant(e.component, e.entity, true) in WithGrant(granted, component, r, write)
    {
      var i :| 0 <= i < |merged| && merged[i] == e;
      assert entries[i] in entries;
    }
    forall g | g in WithGrant(granted, component, r, write)
      ensures HasEntry(merged, g.component, g.entity)
    {
      if g in granted {
        var i :| 0 <= i < |entries| && entries[i].component == g.component && entries[i].entity == g.entity;
        assert merged[i].component == g.component && merged[i].entity == g.entity;
      }
    }
  }

  /** Adds an entry, or upgrades the one there is. */
  method Merge(entries: seq<ViewEntry>, component: nat, r: EntityReference, write: bool, ghost granted: set<Grant>)
    returns (merged: seq<ViewEntry>)
    requires Lists(entries, granted)
    ensures Lists(merged, WithGrant(granted, component, r, write))
  {
    hide Lists, WithGrant, HasEntry;
    var k := Find(entries, component, r);
    if k == |entries| {
      EntryAdded(entries, component, r, write, granted);
      merged := entries + [ViewEntry(component, r, write)];
    } else {
      EntryUpgraded(entries, k, component, r, write, granted);
      merged := entries[k := entries[k].(writable := entries[k].writable || write)];
    }
  }

  /** What has been granted: the present components that the first n declarations give, and a part of the next. */
  ghost predicate GrantedSoFar(t: T.Table, worldId: nat, declarations: seq<Declaration>, n: nat,
                               part: seq<EntityReference>, present: (nat, EntityReference) -> bool, granted: set<Grant>)
    requires n <= |declarations| && (part == [] || n < |declarations|)
  {
    forall g :: g in granted <==>
      && present(g.component, g.entity)
      && (Granted(t, worldId, declarations, n, g) || InPart(declarations, n, part, g))
  }

  ghost predicate InPart(declarations: seq<Declaration>, n: nat, part: seq<EntityReference>, g: Grant)
    requires part == [] || n < |declarations|
  {
    g.entity in part && g.component == declarations[n].component && (g.write ==> declarations[n].mode == WRITE)
  }

  /**
   * Resolves the declarations of a scoped system against the frozen world. The entries are exactly the
   * present components that some declaration grants, once each, writable where some declaration grants writing.
   */
  method Resolve(t: T.Table, worldId: nat, declarations: seq<Declaration>, present: (nat, EntityReference) -> bool)
    returns (result: Result<seq<ViewEntry>, ScopeError>, ghost granted: set<Grant>)
    requires |t.entities| <= INVALID_INDEX
    ensures result.Ok? <==> forall k :: 0 <= k < |declarations| ==> ValidScope(t, worldId, declarations[k].scope)
    ensures result.Ok? ==>
      && Lists(result.value, granted)
      && forall g :: g in granted <==>
           present(g.component, g.entity) && Granted(t, worldId, declarations, |declarations|, g)
  {
    hide InScope, T.HasEntity, ValidScope, Lists;
    var entries: seq<ViewEntry> := [];
    granted := {};
    NothingListed();
    for n := 0 to |declarations|
      invariant forall k :: 0 <= k < n ==> ValidScope(t, worldId, declarations[k].scope)
      invariant Lists(entries, granted) && GrantedSoFar(t, worldId, declarations, n, [], present, granted)
    {
      var d := declarations[n];
      var found := EntitiesOf(t, worldId, d.scope);
      if found.Err? {
        return Err(found.error), granted;
      }
      var entities := found.value;
      assert entities[..0] == [];
      for k := 0 to |entities|
        invariant Lists(entries, granted) && GrantedSoFar(t, worldId, declarations, n, entities[..k], present, granted)
      {
        assert entities[..k + 1] == entities[..k] + [entities[k]];
        if present(d.component, entities[k]) {
          var write := d.mode == WRITE;
          entries := Merge(entries, d.component, entities[k], write, granted);
          granted := WithGrant(granted, d.component, entities[k], write);
        }
      }
      assert entities[..|entities|] == entities;
      DeclarationDone(t, worldId, declarations, n, entities, present, granted);
    }
    return Ok(entries), granted;
  }

  lemma NothingListed()
    ensures Lists([], {})
  {
  }

  lemma DeclarationDone(t: T.Table, worldId: nat, declarations: seq<Declaration>, n: nat,
                        entities: seq<EntityReference>, present: (nat, EntityReference) -> bool, granted: set<Grant>)
    requires n < |declarations| && GrantedSoFar(t, worldId, declarations, n, entities, present, granted)
    requires forall r :: r in entities <==> InScope(t, worldId, declarations[n].scope, r)
    ensures GrantedSoFar(t, worldId, declarations, n + 1, [], present, granted)
  {
    hide InScope;
    forall g: Grant
      ensures Granted(t, worldId, declarations, n + 1, g) <==>
              Granted(t, worldId, declarations, n, g) || InPart(declarations, n, entities, g)
    {
      if InPart(declarations, n, entities, g) {
        assert Grants(t, worldId, declarations[n], g);
      }
    }
  }

  // --------------------------------------------------------------- theorems

  /** A live entity in a declared scope lies in the scope of the footprint the system is admitted with. */
  lemma AdmittedScopeCovers(t: T.Table, worldId: nat, scope: BatchScope, r: EntityReference)
    requires |t.entities| <= INVALID_INDEX && ValidScope(t, worldId, scope) && InScope(t, worldId, scope, r)
    ensures A.Covers(AdmittedScope(scope), A.Slot(r.identity.index))
  {
    if scope.kind == A.ENTITY_SET {
      var k :| 0 <= k < |scope.entities| && scope.entities[k] == r;
      assert AdmittedScope(scope).elements[k] == r.identity.index;
    }
  }

  /** The admitted scope covers exactly the slots the declared one names. */
  lemma AdmittedScopeExactly(t: T.Table, worldId: nat, scope: BatchScope, index: nat)
    requires |t.entities| <= INVALID_INDEX && ValidScope(t, worldId, scope)
    ensures A.Covers(AdmittedScope(scope), A.Slot(index)) <==>
      || scope.kind == A.WHOLE_STORAGE || scope.kind == A.UNKNOWN
      || (scope.kind == A.CHUNK && scope.begin <= index < scope.begin + scope.count)
      || exists k :: 0 <= k < |scope.entities| && scope.entities[k].identity.index == index
  {
    hide T.HasEntity;
    forall k | 0 <= k < |scope.entities| && scope.kind in {A.ENTITY, A.ENTITY_SET}
      ensures Coordinate(scope.entities[k]) == scope.entities[k].identity.index
    {
      assert T.HasEntity(t, scope.entities[k].identity);
      IndexFits(t, scope.entities[k].identity);
    }
    if scope.kind == A.ENTITY_SET {
      var elements := AdmittedScope(scope).elements;
      assert forall k :: 0 <= k < |scope.entities| ==> elements[k] == scope.entities[k].identity.index;
    }
  }

  lemma IndexFits(t: T.Table, e: Entity)
    requires |t.entities| <= INVALID_INDEX && T.HasEntity(t, e)
    ensures e.index < A.MODULUS
  {
  }

  /** A scoped system is admitted for reading the world, and for each declaration with its component's domain, for
      writing exactly if it declares writing. */
  lemma FootprintPerDeclaration(declarations: seq<Declaration>, world: A.DomainKey, domain: nat -> A.DomainKey)
    ensures var f := Footprints(declarations, world, domain);
      && |f| == |declarations| + 1
      && f[0].domain == world && f[0].requirement == A.READ && (forall cell :: A.Covers(f[0].scope, cell))
      && forall k :: 0 <= k < |declarations| ==>
           && f[k + 1].domain == domain(declarations[k].component)
           && f[k + 1].scope == AdmittedScope(declarations[k].scope)
           && f[k + 1].requirement == (match declarations[k].mode case WRITE => A.WRITE case READ => A.READ)
  {
  }

  /**
   * Whatever entry a scoped system resolves, the footprints it is admitted with cover that entity's slot of that
   * component's domain, and cover it for changing when the entry is writable.
   */
  lemma EntriesStayInFootprints(t: T.Table, worldId: nat, declarations: seq<Declaration>, entries: seq<ViewEntry>,
                                granted: set<Grant>, present: (nat, EntityReference) -> bool, world: A.DomainKey,
                                domain: nat -> A.DomainKey, e: ViewEntry)
    requires |t.entities| <= INVALID_INDEX && Lists(entries, granted) && e in entries
    requires forall k :: 0 <= k < |declarations| ==> ValidScope(t, worldId, declarations[k].scope)
    requires forall g :: g in granted <==>
               present(g.component, g.entity) && Granted(t, worldId, declarations, |declarations|, g)
    ensures T.HasEntity(t, e.entity.identity)
    ensures var f := Footprints(declarations, world, domain);
            && A.MayTouch(f, domain(e.component), A.Slot(e.entity.identity.index))
            && (e.writable ==> A.MayChange(f, domain(e.component), A.Slot(e.entity.identity.index)))
  {
    hide ValidScope;
    var f := Footprints(declarations, world, domain);
    var read := Grant(e.component, e.entity, false);
    var k :| 0 <= k < |declarations| && Grants(t, worldId, declarations[k], read);
    AdmittedScopeCovers(t, worldId, declarations[k].scope, e.entity);
    assert f[k + 1].domain == domain(e.component);
    if e.writable {
      var write := Grant(e.component, e.entity, true);
      var l :| 0 <= l < |declarations| && Grants(t, worldId, declarations[l], write);
      AdmittedScopeCovers(t, worldId, declarations[l].scope, e.entity);
      assert f[l + 1].domain == domain(e.component) && f[l + 1].requirement == A.WRITE;
    }
  }

  /** The views of one resolved batch: they answer only on the thread of the running callback. */
  class ResolvedBatchViews {
    const entries: seq<ViewEntry>
    var active: bool
    var thread: nat

    constructor (resolved: seq<ViewEntry>)
      ensures entries == resolved && !active
    {
      entries := resolved;
      active := false;
      thread := 0;
    }

    /** Looks a component up through a view, for reading or for writing. */
    method Get(caller: nat, component: nat, r: EntityReference, write: bool) returns (found: Option<ViewEntry>)
      ensures found.Some? <==>
                active && caller == thread &&
                exists k :: 0 <= k < |entries| && Fits(entries[k], component, r, write)
      ensures found.Some? ==> found.value in entries && Fits(found.value, component, r, write)
      ensures found.Some? ==> found.value.component == component && found.value.entity == r && (write ==> found.value.writable)
      ensures active && caller == thread && found.None? ==>
                forall e :: e in entries && e.component == component && e.entity == r ==> write && !e.writable
    {
      if !active || caller != thread {
        return None;
      }
      for k := 0 to |entries|
        invariant forall j :: 0 <= j < k ==> !Fits(entries[j], component, r, write)
      {
        if Fits(entries[k], component, r, write) {
          return Some(entries[k]);
        }
      }
      return None;
    }

    method Begin(caller: nat)
      modifies this
      ensures active && thread == caller
    {
      thread := caller;
      active := true;
    }

    method End()
      modifies this`active
      ensures !active
    {
      active := false;
    }
  }

  predicate Fits(e: ViewEntry, component: nat, r: EntityReference, write: bool) {
    e.component == component && e.entity == r && (write ==> e.writable)
  }
}
