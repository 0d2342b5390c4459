/**
  Resource authorization: grants on keys and namespaces, the check of one operation, the
  filter of a key listing, and what runs of grant and key operations keep.
 */
module Authz {
  import opened Wrappers
  import opened Strings
  import Tokens

  type Caller = Tokens.Caller
  type Library = Tokens.Library

  /** One row of the grants table; the operations are comma-separated. */
  datatype Grant = Grant(id: string, principal: string, rtype: string, resource: string, operations: string)

  /** The grants, and the keys with their namespaces. */
  datatype Tables = Tables(grants: seq<Grant>, keys: map<string, Option<string>>)

  const ALL_OPS: set<string> := {"encrypt", "decrypt", "sign", "verify", "read", "manage"}
  const READ: string := "read"
  const RESOURCE_KEY: string := "key"
  const RESOURCE_NAMESPACE: string := "namespace"

  /** A kind of resource and its id. */
  type Resource = (string, string)

  function OpsOf(g: Grant): set<string> {
    set o | o in Split(g.operations, ',', |g.operations|) && o != ""
  }

  function GrantsOf(grants: seq<Grant>, principal: string): seq<Grant> {
    if grants == [] then []
    else GrantsOf(grants[..|grants| - 1], principal)
         + if grants[|grants| - 1].principal == principal then [grants[|grants| - 1]] else []
  }

  /** A later row for the same resource replaces an earlier one. */
  function OpsMap(rows: seq<Grant>): map<Resource, set<string>> {
    if rows == [] then map[]
    else
      var g := rows[|rows| - 1];
      OpsMap(rows[..|rows| - 1])[(g.rtype, g.resource) := OpsOf(g)]
  }

  function PrincipalOps(grants: seq<Grant>, principal: Option<string>): map<Resource, set<string>> {
    if principal.GetOr("") == "" then map[] else OpsMap(GrantsOf(grants, principal.value))
  }

  predicate Grants(ops: map<Resource, set<string>>, r: Resource, op: string) {
    r in ops && op in ops[r]
  }

  predicate Allows(grants: seq<Grant>, principal: Option<string>, op: string,
                   key: Option<string>, namespace: Option<string>)
  {
    var ops := PrincipalOps(grants, principal);
    || (key.Some? && Grants(ops, (RESOURCE_KEY, key.value), op))
    || (namespace.Some? && Grants(ops, (RESOURCE_NAMESPACE, namespace.value), op))
  }

  /** The namespace of a key; none for a key that does not exist or has none. */
  function NamespaceOf(t: Tables, key: string): Option<string> {
    if key in t.keys then t.keys[key] else None
  }

  predicate IsAdmin(caller: Caller) {
    "admin" in caller.scopes
  }

  predicate KeyOpAllowed(t: Tables, strict: bool, caller: Caller, op: string, key: string) {
    IsAdmin(caller) || !strict || Allows(t.grants, caller.principalId, op, Some(key), NamespaceOf(t, key))
  }

  predicate NamespaceOpAllowed(t: Tables, strict: bool, caller: Caller, op: string, namespace: string) {
    IsAdmin(caller) || !strict || Allows(t.grants, caller.principalId, op, None, Some(namespace))
  }

  // ----------------------------------------------------- what a grant means ----

  ghost predicate HasGrant(grants: seq<Grant>, principal: string, r: Resource, op: string) {
    exists g :: g in grants && g.principal == principal && (g.rtype, g.resource) == r && op in OpsOf(g)
  }

  predicate SameTarget(g: Grant, h: Grant) {
    g.principal == h.principal && g.rtype == h.rtype && g.resource == h.resource
  }

  /** One grant per principal and resource. */
  ghost predicate OnePerResource(grants: seq<Grant>) {
    forall i, j :: 0 <= i < j < |grants| ==> !SameTarget(grants[i], grants[j])
  }

  lemma {:induction false} OpsMapMeans(grants: seq<Grant>, principal: string, r: Resource, op: string)
    requires OnePerResource(grants)
    ensures Grants(OpsMap(GrantsOf(grants, principal)), r, op) <==> HasGrant(grants, principal, r, op)
  {
    if grants == [] {
    } else {
      hide OpsOf, OpsMap, GrantsOf, HasGrant, OnePerResource;
      var front, g := grants[..|grants| - 1], grants[|grants| - 1];
      assert grants == front + [g];
      FrontIsUnique(front, g);
      OpsMapMeans(front, principal, r, op);
      GrantsOfStep(front, g, principal);
      HasGrantStep(front, g, principal, r, op);
      LastIsOnly(front, g, op);
    }
  }

  lemma FrontIsUnique(front: seq<Grant>, g: Grant)
    requires OnePerResource(front + [g])
    ensures OnePerResource(front)
  {
    var grants := front + [g];
    assert forall i :: 0 <= i < |front| ==> front[i] == grants[i];
  }

  lemma HasGrantStep(front: seq<Grant>, g: Grant, principal: string, r: Resource, op: string)
    ensures HasGrant(front + [g], principal, r, op)
      <==> (HasGrant(front, principal, r, op)
            || (g.principal == principal && (g.rtype, g.resource) == r && op in OpsOf(g)))
  {
    hide OpsOf;
    assert forall h :: h in front + [g] <==> h in front || h == g;
  }

  lemma LastIsOnly(front: seq<Grant>, g: Grant, op: string)
    requires OnePerResource(front + [g])
    ensures !HasGrant(front, g.principal, (g.rtype, g.resource), op)
  {
    hide OpsOf;
    var grants := front + [g];
    forall i | 0 <= i < |front|
      ensures !SameTarget(front[i], g)
    {
      assert front[i] == grants[i] && g == grants[|front|];
    }
  }

  lemma GrantsOfStep(front: seq<Grant>, g: Grant, principal: string)
    ensures OpsMap(GrantsOf(front + [g], principal))
      == if g.principal == principal then OpsMap(GrantsOf(front, principal))[(g.rtype, g.resource) := OpsOf(g)]
         else OpsMap(GrantsOf(front, principal))
  {
    hide OpsOf;
    var all := front + [g];
    assert all[..|all| - 1] == front;
    var rows := GrantsOf(front, principal);
    assert (rows + [g])[..|rows + [g]| - 1] == rows;
    assert rows + [] == rows;
  }

  /**
    An operation on a key is allowed to an administrator, to everyone in legacy mode, and
    in strict mode to a principal with a grant for it on the key or on its namespace.
   */
  lemma AllowedMeans(t: Tables, strict: bool, caller: Caller, op: string, key: string)
    requires OnePerResource(t.grants)
    ensures KeyOpAllowed(t, strict, caller, op, key)
      <==> ("admin" in caller.scopes || !strict
            || (caller.principalId.GetOr("") != ""
                && (HasGrant(t.grants, caller.principalId.value, ("key", key), op)
                    || (key in t.keys && t.keys[key].Some?
                        && HasGrant(t.grants, caller.principalId.value, ("namespace", t.keys[key].value), op)))))
  {
    hide HasGrant, OpsMap, GrantsOf, OnePerResource;
    if caller.principalId.GetOr("") != "" {
      OpsMapMeans(t.grants, caller.principalId.value, (RESOURCE_KEY, key), op);
      if key in t.keys && t.keys[key].Some? {
        OpsMapMeans(t.grants, caller.principalId.value, (RESOURCE_NAMESPACE, t.keys[key].value), op);
      }
    }
  }

  /** An operation in a namespace: likewise, by a grant on the namespace. */
  lemma NamespaceAllowedMeans(t: Tables, strict: bool, caller: Caller, op: string, namespace: string)
    requires OnePerResource(t.grants)
    ensures NamespaceOpAllowed(t, strict, caller, op, namespace)
      <==> ("admin" in caller.scopes || !strict
            || (caller.principalId.GetOr("") != ""
                && HasGrant(t.grants, caller.principalId.value, ("namespace", namespace), op)))
  {
    hide HasGrant, OpsMap, GrantsOf, OnePerResource;
    if caller.principalId.GetOr("") != "" {
      OpsMapMeans(t.grants, caller.principalId.value, (RESOURCE_NAMESPACE, namespace), op);
    }
  }

  /** The right to act in a namespace comes from a grant on it and extends to every key in it. */
  lemma NamespaceRightReachesKeys(t: Tables, strict: bool, caller: Caller, op: string, namespace: string, key: string)
    requires OnePerResource(t.grants) && NamespaceOpAllowed(t, strict, caller, op, namespace)
    requires key in t.keys && t.keys[key] == Some(namespace)
    ensures KeyOpAllowed(t, strict, caller, op, key)
    ensures "admin" !in caller.scopes && strict ==>
      caller.principalId.GetOr("") != ""
      && HasGrant(t.grants, caller.principalId.value, (RESOURCE_NAMESPACE, namespace), op)
  {
    hide HasGrant, OpsMap, GrantsOf, OnePerResource;
    if caller.principalId.GetOr("") != "" {
      OpsMapMeans(t.grants, caller.principalId.value, (RESOURCE_NAMESPACE, namespace), op);
    }
  }

  // ----------------------------------------------------------- the listing ----

  datatype KeyInfo = KeyInfo(id: string, namespace: Option<string>)

  /** The listed keys on which the caller may do the operation, in their order. */
  function Permitted(t: Tables, strict: bool, caller: Caller, op: string, keys: seq<KeyInfo>): seq<KeyInfo> {
    if keys == [] then []
    else Permitted(t, strict, caller, op, keys[..|keys| - 1])
         + if KeyOpAllowed(t, strict, caller, op, keys[|keys| - 1].id) then [keys[|keys| - 1]] else []
  }

  /** Positions in a list, in order and each once. */
  ghost predicate Positions(picks: seq<nat>, n: nat) {
    && (forall i :: 0 <= i < |picks| ==> picks[i] < n)
    && (forall i, j :: 0 <= i < j < |picks| ==> picks[i] < picks[j])
  }

  function At(keys: seq<KeyInfo>, picks: seq<nat>): (r: seq<KeyInfo>)
    requires forall i :: 0 <= i < |picks| ==> picks[i] < |keys|
    ensures |r| == |picks| && forall i :: 0 <= i < |picks| ==> r[i] == keys[picks[i]]
  {
    seq(|picks|, i requires 0 <= i < |picks| => keys[picks[i]])
  }

  /** The visible keys are those at exactly the positions whose key the caller may read, in their order. */
  ghost predicate ShowsReadable(t: Tables, strict: bool, caller: Caller, keys: seq<KeyInfo>, visible: seq<KeyInfo>) {
    exists picks :: Positions(picks, |keys|) && visible == At(keys, picks)
      && forall j: nat :: j < |keys| ==> (j in picks <==> KeyOpAllowed(t, strict, caller, "read", keys[j].id))
  }

  lemma {:induction false} PermittedShowsReadable(t: Tables, strict: bool, caller: Caller, keys: seq<KeyInfo>)
    returns (picks: seq<nat>)
    ensures Positions(picks, |keys|) && Permitted(t, strict, caller, READ, keys) == At(keys, picks)
    ensures forall j: nat :: j < |keys| ==> (j in picks <==> KeyOpAllowed(t, strict, caller, "read", keys[j].id))
  {
    if keys == [] {
      picks := [];
    } else {
      hide KeyOpAllowed, At, Positions, Permitted;
      var n := |keys| - 1;
      var front := PermittedShowsReadable(t, strict, caller, keys[..n]);
      var last := KeyOpAllowed(t, strict, caller, "read", keys[n].id);
      PermittedStep(t, strict, caller, READ, keys);
      OneMorePosition(keys, front, n);
      picks := if last then front + [n] else front;
      forall j: nat | j < |keys|
        ensures j in picks <==> KeyOpAllowed(t, strict, caller, "read", keys[j].id)
      {
        OneMoreMember(front, n, j);
        if j < n {
          assert keys[..n][j] == keys[j];
        }
      }
    }
  }

  lemma PermittedStep(t: Tables, strict: bool, caller: Caller, op: string, keys: seq<KeyInfo>)
    requires keys != []
    ensures var n := |keys| - 1; var front := Permitted(t, strict, caller, op, keys[..n]);
      Permitted(t, strict, caller, op, keys) 
        == if KeyOpAllowed(t, strict, caller, op, keys[n].id) then front + [keys[n]] else front
  {
    hide KeyOpAllowed;
  }

  lemma OneMorePosition(keys: seq<KeyInfo>, picks: seq<nat>, n: nat)
    requires n < |keys| && Positions(picks, n)
    ensures Positions(picks, |keys|) && Positions(picks + [n], n + 1) && n !in picks
    ensures At(keys[..n], picks) == At(keys, picks) && At(keys, picks + [n]) == At(keys, picks) + [keys[n]]
  {}

  lemma OneMoreMember(picks: seq<nat>, n: nat, j: nat)
    ensures j in picks + [n] <==> j in picks || j == n
  {}

  /** Rows of the key table. */
  ghost predicate Listing(t: Tables, keys: seq<KeyInfo>) {
    forall i :: 0 <= i < |keys| ==> keys[i].id in t.keys && t.keys[keys[i].id] == keys[i].namespace
  }

  lemma {:induction false} PermittedAll(t: Tables, strict: bool, caller: Caller, op: string, keys: seq<KeyInfo>)
    requires IsAdmin(caller) || !strict
    ensures Permitted(t, strict, caller, op, keys) == keys
  {
    if keys != [] {
      PermittedAll(t, strict, caller, op, keys[..|keys| - 1]);
      assert keys == keys[..|keys| - 1] + [keys[|keys| - 1]];
    }
  }

  // ---------------------------------------------------------------- tables ----

  /** The position of the grant with the same target, or the length of the table. */
  function FindTarget(grants: seq<Grant>, row: Grant): (i: nat)
    ensures i <= |grants| && (i < |grants| ==> SameTarget(grants[i], row))
    ensures forall k :: 0 <= k < i ==> !SameTarget(grants[k], row)
  {
    if grants == [] || SameTarget(grants[0], row) then 0 else 1 + FindTarget(grants[1..], row)
  }

  /** Replace the operations of the existing grant, or insert; and the id that is now authoritative. */
  function UpsertGrant(t: Tables, row: Grant): (Tables, string) {
    var i := FindTarget(t.grants, row);
    if i < |t.grants| then
      (t.(grants := t.grants[i := t.grants[i].(operations := row.operations)]), t.grants[i].id)
    else (t.(grants := t.grants + [row]), row.id)
  }

  function WithoutId(grants: seq<Grant>, id: string): (r: seq<Grant>)
    ensures forall g :: g in r <==> g in grants && g.id != id
  {
    if grants == [] then []
    else
      assert grants == grants[..|grants| - 1] + [grants[|grants| - 1]];
      WithoutId(grants[..|grants| - 1], id) + if grants[|grants| - 1].id == id then [] else [grants[|grants| - 1]]
  }

  function WithoutKey(grants: seq<Grant>, key: string): (r: seq<Grant>)
    ensures forall g :: g in r <==> g in grants && !(g.rtype == RESOURCE_KEY && g.resource == key)
  {
    if grants == [] then []
    else
      var g := grants[|grants| - 1];
      assert grants == grants[..|grants| - 1] + [g];
      WithoutKey(grants[..|grants| - 1], key) + if g.rtype == RESOURCE_KEY && g.resource == key then [] else [g]
  }

  /** The key's grants and the key go in one transaction. */
  function DestroyKey(t: Tables, key: string): (Tables, bool) {
    if key in t.keys then (Tables(WithoutKey(t.grants, key), t.keys - {key}), true) else (t, false)
  }

  /** After an upsert its target has exactly the new operations, and no other target changed. */
  lemma UpsertMeans(t: Tables, row: Grant, principal: string, r: Resource, op: string)
    requires OnePerResource(t.grants)
    ensures HasGrant(UpsertGrant(t, row).0.grants, principal, r, op)
      <==> if principal == row.principal && r == (row.rtype, row.resource) then op in OpsOf(row)
           else HasGrant(t.grants, principal, r, op)
  {
    hide FindTarget;
    var grants := UpsertGrant(t, row).0.grants;
    var i := FindTarget(t.grants, row);
    if i < |t.grants| {
      OpsOfOperations(grants[i], row);
    }
    if HasGrant(grants, principal, r, op) {
      var k :| 0 <= k < |grants| && grants[k].principal == principal
        && (grants[k].rtype, grants[k].resource) == r && op in OpsOf(grants[k]);
      if k != i {
        assert t.grants[k] == grants[k];
      }
    }
    if principal == row.principal && r == (row.rtype, row.resource) {
      assert op in OpsOf(row) ==> grants[i] in grants && op in OpsOf(grants[i]);
    } else if HasGrant(t.grants, principal, r, op) {
      var k :| 0 <= k < |t.grants| && t.grants[k].principal == principal
        && (t.grants[k].rtype, t.grants[k].resource) == r && op in OpsOf(t.grants[k]);
      assert grants[k] == t.grants[k];
    }
  }

  lemma OpsOfOperations(g: Grant, h: Grant)
    requires g.operations == h.operations
    ensures OpsOf(g) == OpsOf(h)
  {}

  /** What the route stores comes back as the same operations. */
  lemma StoredOps(l: Library, g: Grant, ops: set<string>)
    requires Tokens.Sorts(l) && ops <= ALL_OPS && g.operations == Join(Tokens.Sorted(l, ops), ',')
    ensures OpsOf(g) == ops
  {
    hide Split, Join, ALL_OPS;
    var parts := Tokens.Sorted(l, ops);
    assert forall x :: x in ops <==> x in parts;
    forall i | 0 <= i < |parts|
      ensures ',' !in parts[i] && parts[i] != ""
    {
      OpsArePlain(parts[i]);
    }
    JoinLength(parts, ',');
    SplitJoin(parts, ',', |g.operations|);
  }

  lemma OpsArePlain(op: string)
    requires op in ALL_OPS
    ensures ',' !in op && op != ""
  {}

  class GrantStore {
    var grants: seq<Grant>
    var keys: map<string, Option<string>>

    function State(): Tables
      reads this
    {
      Tables(grants, keys)
    }

    constructor ()
      ensures State() == Tables([], map[])
    {
      grants, keys := [], map[];
    }

    method Upsert(row: Grant) returns (id: string)
      modifies this`grants
      ensures (State(), id) == UpsertGrant(old(State()), row)
    {
      var i := FindTarget(grants, row);
      if i < |grants| {
        grants := grants[i := grants[i].(operations := row.operations)];
        return grants[i].id;
      }
      grants := grants + [row];
      return row.id;
    }

    method Delete(id: string) returns (found: bool)
      modifies this`grants
      ensures grants == WithoutId(old(grants), id)
      ensures found <==> exists g :: g in old(grants) && g.id == id
    {
      found := exists k | 0 <= k < |grants| :: grants[k].id == id;
      grants := WithoutId(grants, id);
    }

    method Destroy(key: string) returns (found: bool)
      modifies this
      ensures (State(), found) == DestroyKey(old(State()), key)
    {
      if key !in keys {
        return false;
      }
      grants := WithoutKey(grants, key);
      keys := keys - {key};
      return true;
    }
  }

  class Authorizer {
    const repo: GrantStore
    const strict: bool

    constructor (repo: GrantStore, strict: bool)
      ensures this.repo == repo && this.strict == strict
    {
      this.repo, this.strict := repo, strict;
    }

    /** The dictionary of one principal's operations by resource. */
    method CollectOps(principal: Option<string>) returns (ops: map<Resource, set<string>>)
      ensures ops == PrincipalOps(repo.grants, principal)
    {
      ops := map[];
      if principal.None? || principal.value == "" {
        return;
      }
      var rows := GrantsOf(repo.grants, principal.value);
      assert rows[..|rows|] == rows;
      for i := 0 to |rows|
        invariant ops == OpsMap(rows[..i])
      {
        assert rows[..i + 1][..i] == rows[..i];
        ops := ops[(rows[i].rtype, rows[i].resource) := OpsOf(rows[i])];
      }
    }

    method AuthorizeKeyOp(caller: Caller, op: string, key: string) returns (allowed: bool)
      ensures allowed == KeyOpAllowed(repo.State(), strict, caller, op, key)
    {
      if IsAdmin(caller) || !strict {
        return true;
      }
      var namespace := if key in repo.keys then repo.keys[key] else None;
      var ops := CollectOps(caller.principalId);
      if Grants(ops, (RESOURCE_KEY, key), op) {
        return true;
      }
      return namespace.Some? && Grants(ops, (RESOURCE_NAMESPACE, namespace.value), op);
    }

    method AuthorizeNamespaceOp(caller: Caller, op: string, namespace: string) returns (allowed: bool)
      ensures allowed == NamespaceOpAllowed(repo.State(), strict, caller, op, namespace)
    {
      if IsAdmin(caller) || !strict {
        return true;
      }
      var ops := CollectOps(caller.principalId);
      return Grants(ops, (RESOURCE_NAMESPACE, namespace), op);
    }

    /** Collects the readable ids first; keeps exactly the keys the single check would let be read. */
    method FilterVisibleKeys(caller: Caller, keys: seq<KeyInfo>) returns (visible: seq<KeyInfo>)
      requires Listing(repo.State(), keys)
      ensures visible == Permitted(repo.State(), strict, caller, READ, keys)
      ensures ShowsReadable(repo.State(), strict, caller, keys, visible)
      ensures forall k :: k in visible <==> k in keys && KeyOpAllowed(repo.State(), strict, caller, "read", k.id)
    {
      Readable(repo.State(), strict, caller, keys);
      if IsAdmin(caller) || !strict {
        PermittedAll(repo.State(), strict, caller, READ, keys);
        return keys;
      }
      var ops := CollectOps(caller.principalId);
      var readableKeys := set r | r in ops && r.0 == RESOURCE_KEY && READ in ops[r] :: r.1;
      var readableNamespaces := set r | r in ops && r.0 == RESOURCE_NAMESPACE && READ in ops[r] :: r.1;
      visible := [];
      assert keys[..|keys|] == keys;
      for i := 0 to |keys|
        invariant visible == Permitted(repo.State(), strict, caller, READ, keys[..i])
      {
        hide PrincipalOps;
        var k := keys[i];
        assert keys[..i + 1][..i] == keys[..i];
        ReadableIds(ops, RESOURCE_KEY, k.id, readableKeys);
        if k.namespace.Some? {
          ReadableIds(ops, RESOURCE_NAMESPACE, k.namespace.value, readableNamespaces);
        }
        if k.id in readableKeys || (k.namespace.Some? && k.namespace.value in readableNamespaces) {
          visible := visible + [k];
        }
      }
    }
  }

  lemma Readable(t: Tables, strict: bool, caller: Caller, keys: seq<KeyInfo>)
    ensures var visible := Permitted(t, strict, caller, READ, keys);
      && ShowsReadable(t, strict, caller, keys, visible)
      && forall k :: k in visible <==> k in keys && KeyOpAllowed(t, strict, caller, "read", k.id)
  {
    hide KeyOpAllowed, Permitted;
    var visible := Permitted(t, strict, caller, READ, keys);
    var picks := PermittedShowsReadable(t, strict, caller, keys);
    forall k | k in keys && KeyOpAllowed(t, strict, caller, "read", k.id)
      ensures k in visible
    {
      var j: nat :| j < |keys| && keys[j] == k;
      assert j in picks;
      var i :| 0 <= i < |picks| && picks[i] == j;
      assert visible[i] == k;
    }
    forall k | k in visible
      ensures k in keys && KeyOpAllowed(t, strict, caller, "read", k.id)
    {
      var i :| 0 <= i < |visible| && visible[i] == k;
      assert picks[i] in picks;
    }
  }

  lemma ReadableIds(ops: map<Resource, set<string>>, rtype: string, id: string, ids: set<string>)
    requires ids == set r | r in ops && r.0 == rtype && READ in ops[r] :: r.1
    ensures id in ids <==> Grants(ops, (rtype, id), READ)
  {
    if Grants(ops, (rtype, id), READ) {
      var r: Resource := (rtype, id);
      assert r in ops && r.0 == rtype && READ in ops[r];
    }
  }

  // ------------------------------------------------------------------ runs ----

  /** The tables, what exists beside them, and the ids ever used. */
  datatype State = State(t: Tables, namespaces: set<string>, principals: set<string>, born: set<string>)

  const START: State := State(Tables([], map[]), {}, {}, {})

  datatype Event =
    | AddNamespace(ns: string)
    | AddPrincipal(pid: string)
    | RemovePrincipal(pid: string)
    | AddKey(key: string, namespace: Option<string>)
    | Destroy(key: string)
    | CreateGrant(gid: string, principal: string, rtype: string, resource: string, ops: set<string>)
    | DeleteGrant(gid: string)

  datatype GrantError = InvalidOperations | UnknownPrincipal | UnknownNamespace | UnknownKey | InvalidType

  /** The route in front of the upsert: the operations, the principal and the resource must be known. */
  function RequestGrant(l: Library, s: State, e: Event): Result<State, GrantError>
    requires e.CreateGrant?
  {
    if e.rtype != RESOURCE_KEY && e.rtype != RESOURCE_NAMESPACE then Err(InvalidType)
    else if e.ops == {} || !(e.ops <= ALL_OPS) then Err(InvalidOperations)
    else if e.principal !in s.principals then Err(UnknownPrincipal)
    else if e.rtype == RESOURCE_NAMESPACE && e.resource !in s.namespaces then Err(UnknownNamespace)
    else if e.rtype == RESOURCE_KEY && NamespaceOf(s.t, e.resource).None? then Err(UnknownKey)
    else
      var row := Grant(e.gid, e.principal, e.rtype, e.resource, Join(Tokens.Sorted(l, e.ops), ','));
      Ok(s.(t := UpsertGrant(s.t, row).0, born := s.born + {e.gid}))
  }

  /** Ids come from uuid4 and never repeat. */
  function Step(l: Library, s: State, e: Event): State {
    match e
    case AddNamespace(ns) => s.(namespaces := s.namespaces + {ns})
    case AddPrincipal(pid) => s.(principals := s.principals + {pid})
    case RemovePrincipal(pid) => s.(principals := s.principals - {pid})
    case AddKey(key, namespace) =>
      if key in s.born then s else s.(t := s.t.(keys := s.t.keys[key := namespace]), born := s.born + {key})
    case Destroy(key) => s.(t := DestroyKey(s.t, key).0)
    case CreateGrant(gid, _, _, _, _) =>
      if gid in s.born then s
      else (match RequestGrant(l, s, e) case Ok(s') => s' case Err(_) => s)
    case DeleteGrant(gid) => s.(t := s.t.(grants := WithoutId(s.t.grants, gid)))
  }

  function Run(l: Library, events: seq<Event>): State {
    if events == [] then START else Step(l, Run(l, events[..|events| - 1]), events[|events| - 1])
  }

  /** A grant is on a known kind of resource, on a key only while that exists, and for some known operations. */
  ghost predicate GrantOk(s: State, g: Grant) {
    && g.id in s.born && (g.rtype == RESOURCE_KEY || g.rtype == RESOURCE_NAMESPACE)
    && (g.rtype == RESOURCE_KEY ==> g.resource in s.t.keys)
    && (g.rtype == RESOURCE_NAMESPACE ==> g.resource in s.namespaces)
    && OpsOf(g) != {} && OpsOf(g) <= ALL_OPS
  }

  ghost predicate Inv(s: State) {
    && OnePerResource(s.t.grants) && s.t.keys.Keys <= s.born
    && (forall i :: 0 <= i < |s.t.grants| ==> GrantOk(s, s.t.grants[i]))
  }

  lemma UpsertKeepsInv(s: State, row: Grant)
    requires Inv(s) && GrantOk(s.(born := s.born + {row.id}), row)
    ensures Inv(s.(t := UpsertGrant(s.t, row).0, born := s.born + {row.id}))
  {
    hide ALL_OPS;
    var s' := s.(t := UpsertGrant(s.t, row).0, born := s.born + {row.id});
    var k := FindTarget(s.t.grants, row);
    forall i | 0 <= i < |s'.t.grants|
      ensures GrantOk(s', s'.t.grants[i])
    {
      if i < |s.t.grants| {
        assert GrantOk(s, s.t.grants[i]);
      }
      if i == k {
        OpsOfOperations(s'.t.grants[i], row);
      }
    }
  }

  lemma {:induction false} WithoutIdKeepsOne(grants: seq<Grant>, id: string)
    requires OnePerResource(grants)
    ensures OnePerResource(WithoutId(grants, id))
  {
    if grants != [] {
      var front, g := grants[..|grants| - 1], grants[|grants| - 1];
      WithoutIdKeepsOne(front, id);
      OneMore(WithoutId(front, id), front, g);
    }
  }

  lemma {:induction false} WithoutKeyKeepsOne(grants: seq<Grant>, key: string)
    requires OnePerResource(grants)
    ensures OnePerResource(WithoutKey(grants, key))
  {
    if grants != [] {
      var front, g := grants[..|grants| - 1], grants[|grants| - 1];
      WithoutKeyKeepsOne(front, key);
      OneMore(WithoutKey(front, key), front, g);
    }
  }

  lemma OneMore(kept: seq<Grant>, front: seq<Grant>, g: Grant)
    requires OnePerResource(front + [g]) && OnePerResource(kept)
    requires forall h :: h in kept ==> h in front
    ensures OnePerResource(kept + [g]) && OnePerResource(kept + [])
  {
    var grants := front + [g];
    forall i | 0 <= i < |kept|
      ensures !SameTarget(kept[i], g)
    {
      assert kept[i] in front;
      var k :| 0 <= k < |front| && front[k] == kept[i];
      assert grants[k] == kept[i] && grants[|front|] == g;
    }
  }

  lemma StepKeepsInv(l: Library, s: State, e: Event)
    requires Tokens.Sorts(l) && Inv(s)
    ensures Inv(Step(l, s, e))
  {
    hide ALL_OPS, OpsOf, Join, WithoutId, WithoutKey, UpsertGrant;
    if e.CreateGrant? {
      if e.gid !in s.born && RequestGrant(l, s, e).Ok? {
        var row := Grant(e.gid, e.principal, e.rtype, e.resource, Join(Tokens.Sorted(l, e.ops), ','));
        StoredOps(l, row, e.ops);
        UpsertKeepsInv(s, row);
      }
    } else {
      var s' := Step(l, s, e);
      if e.Destroy? {
        WithoutKeyKeepsOne(s.t.grants, e.key);
      } else if e.DeleteGrant? {
        WithoutIdKeepsOne(s.t.grants, e.gid);
      }
      forall i | 0 <= i < |s'.t.grants|
        ensures GrantOk(s', s'.t.grants[i])
      {
        GrantAt(s, s'.t.grants[i], e, s');
      }
    }
  }

  /** A grant that is still there was fine before. */
  lemma GrantAt(s: State, g: Grant, e: Event, s': State)
    requires Inv(s) && g in s'.t.grants && !e.CreateGrant?
    requires exists l :: s' == Step(l, s, e)
    ensures GrantOk(s', g)
  {
    hide ALL_OPS, OpsOf;
    assert g in s.t.grants;
    var k :| 0 <= k < |s.t.grants| && s.t.grants[k] == g;
  }

  lemma {:induction false} RunKeepsInv(l: Library, events: seq<Event>)
    requires Tokens.Sorts(l)
    ensures Inv(Run(l, events))
  {
    hide Inv, Step;
    if events == [] {
      EmptyInv();
    } else {
      RunKeepsInv(l, events[..|events| - 1]);
      StepKeepsInv(l, Run(l, events[..|events| - 1]), events[|events| - 1]);
    }
  }

  lemma EmptyInv()
    ensures Inv(START)
  {}

  /** In every reachable state, a caller in strict mode may use a key exactly by an existing grant. */
  lemma ReachableAllowedMeans(l: Library, events: seq<Event>, caller: Caller, op: string, key: string)
    requires Tokens.Sorts(l) && "admin" !in caller.scopes && caller.principalId.GetOr("") != ""
    ensures var t := Run(l, events).t;
      key !in t.keys ==> !KeyOpAllowed(t, true, caller, op, key)
    ensures var t := Run(l, events).t;
      key in t.keys && t.keys[key].Some? ==> (KeyOpAllowed(t, true, caller, op, key)
        <==> (HasGrant(t.grants, caller.principalId.value, (RESOURCE_KEY, key), op)
              || HasGrant(t.grants, caller.principalId.value, (RESOURCE_NAMESPACE, t.keys[key].value), op)))
  {
    hide Run, KeyOpAllowed, OpsOf;
    RunKeepsInv(l, events);
    var s := Run(l, events);
    AllowedMeans(s.t, true, caller, op, key);
    if HasGrant(s.t.grants, caller.principalId.value, (RESOURCE_KEY, key), op) {
      var k :| 0 <= k < |s.t.grants| && s.t.grants[k].rtype == RESOURCE_KEY && s.t.grants[k].resource == key;
      assert GrantOk(s, s.t.grants[k]);
    }
  }

  /** Keys, their namespaces and single grants come and go as asked. */
  lemma PlainSteps(l: Library, s: State, key: string, namespace: Option<string>, gid: string, g: Grant)
    ensures key !in s.born ==> Step(l, s, AddKey(key, namespace)).t == s.t.(keys := s.t.keys[key := namespace])
    ensures key !in Step(l, s, Destroy(key)).t.keys
    ensures forall k :: k in s.t.keys && k != key ==> k in Step(l, s, Destroy(key)).t.keys
    ensures g in Step(l, s, DeleteGrant(gid)).t.grants <==> g in s.t.grants && g.id != gid
    ensures g in Step(l, s, Destroy(key)).t.grants <==>
      g in s.t.grants && !(key in s.t.keys && g.rtype == "key" && g.resource == key)
  {}

  /** When a request for a grant succeeds, and what rights it leaves its principal. */
  lemma RequestMeans(l: Library, s: State, e: Event, op: string)
    requires Tokens.Sorts(l) && Inv(s) && e.CreateGrant?
    ensures RequestGrant(l, s, e).Ok? <==>
      && e.ops != {} && e.ops <= ALL_OPS && e.principal in s.principals
      && ((e.rtype == "namespace" && e.resource in s.namespaces)
          || (e.rtype == "key" && e.resource in s.t.keys && s.t.keys[e.resource].Some?))
    ensures RequestGrant(l, s, e).Ok? ==>
      (HasGrant(RequestGrant(l, s, e).value.t.grants, e.principal, (e.rtype, e.resource), op) <==> op in e.ops)
  {
    hide ALL_OPS, OpsOf, Join, UpsertGrant, HasGrant, OnePerResource;
    if RequestGrant(l, s, e).Ok? {
      var row := Grant(e.gid, e.principal, e.rtype, e.resource, Join(Tokens.Sorted(l, e.ops), ','));
      StoredOps(l, row, e.ops);
      UpsertMeans(s.t, row, e.principal, (e.rtype, e.resource), op);
    }
  }

  // ------------------------------------------------------- dangling grants ----

  ghost predicate Holder(grants: seq<Grant>, principal: string) {
    exists g :: g in grants && g.principal == principal
  }

  /** Every grant belongs to an existing principal. */
  ghost predicate NoneDangles(s: State) {
    forall principal :: Holder(s.t.grants, principal) ==> principal in s.principals
  }

  /** Who may hold a grant after an event: whoever did, and the target of a granted request. */
  lemma HolderComesFrom(l: Library, s: State, e: Event, principal: string)
    requires Holder(Step(l, s, e).t.grants, principal)
    ensures Holder(s.t.grants, principal)
      || (e.CreateGrant? && e.principal == principal && principal in Step(l, s, e).principals)
  {
    hide ALL_OPS, FindTarget, Join;
    var grants := Step(l, s, e).t.grants;
    var k :| 0 <= k < |grants| && grants[k].principal == principal;
    if k < |s.t.grants| {
      assert s.t.grants[k] in s.t.grants;
    }
    assert grants[k] in grants;
  }

  lemma OnlyRemovalRemoves(l: Library, s: State, e: Event, principal: string)
    requires principal in s.principals && principal !in Step(l, s, e).principals
    ensures e == RemovePrincipal(principal)
  {}

  /** Of all events exactly the removal of a principal that holds a grant makes grants dangle. */
  lemma WhatMakesGrantsDangle(l: Library, s: State, e: Event)
    requires NoneDangles(s)
    ensures NoneDangles(Step(l, s, e)) <==> !(e.RemovePrincipal? && Holder(s.t.grants, e.pid))
  {
    hide Step, Holder;
    var s' := Step(l, s, e);
    if e.RemovePrincipal? {
      RemovalKeepsGrants(l, s, e.pid);
    }
    if !NoneDangles(s') {
      var principal :| Holder(s'.t.grants, principal) && principal !in s'.principals;
      HolderComesFrom(l, s, e, principal);
      OnlyRemovalRemoves(l, s, e, principal);
    }
  }

  lemma RemovalKeepsGrants(l: Library, s: State, principal: string)
    ensures var s' := Step(l, s, RemovePrincipal(principal));
      s'.t == s.t && principal !in s'.principals
  {}

  /** A run in which no principal is removed while it holds a grant. */
  ghost predicate CarefulRun(l: Library, events: seq<Event>) {
    forall k :: 0 <= k < |events| && events[k].RemovePrincipal? ==> !Holder(Run(l, events[..k]).t.grants, events[k].pid)
  }

  /** In such a run no grant ever dangles. */
  lemma {:induction false} CarefulRunsDangleNever(l: Library, events: seq<Event>)
    requires CarefulRun(l, events)
    ensures NoneDangles(Run(l, events))
  {
    hide Step, Holder;
    if events == [] {
      NoneDanglesAtStart();
    } else {
      var n := |events| - 1;
      forall k | 0 <= k < n && events[..n][k].RemovePrincipal?
        ensures !Holder(Run(l, events[..n][..k]).t.grants, events[..n][k].pid)
      {
        assert events[..n][..k] == events[..k];
      }
      CarefulRunsDangleNever(l, events[..n]);
      WhatMakesGrantsDangle(l, Run(l, events[..n]), events[n]);
    }
  }

  lemma NoneDanglesAtStart()
    ensures NoneDangles(START)
  {}

  /** Any grant that dangles was left behind by a removal of its principal. */
  lemma {:induction false} DanglingMeansRemoved(l: Library, events: seq<Event>, principal: string) returns (k: nat)
    requires Holder(Run(l, events).t.grants, principal) && principal !in Run(l, events).principals
    ensures k < |events| && events[k] == RemovePrincipal(principal)
  {
    hide Step, Holder;
    NoneDanglesAtStart();
    var n := |events| - 1;
    var before := Run(l, events[..n]);
    if principal in before.principals {
      OnlyRemovalRemoves(l, before, events[n], principal);
      k := n;
    } else {
      HolderComesFrom(l, before, events[n], principal);
      k := DanglingMeansRemoved(l, events[..n], principal);
    }
  }

  /** Namespace, principal, grant, removal: a run from the empty tables that ends with a dangling grant. */
  lemma DanglingRun(l: Library) returns (events: seq<Event>)
    ensures events == [AddNamespace("n"), AddPrincipal("p"),
                       CreateGrant("g", "p", RESOURCE_NAMESPACE, "n", {READ}), RemovePrincipal("p")]
    ensures Holder(Run(l, events).t.grants, "p") && "p" !in Run(l, events).principals && !NoneDangles(Run(l, events))
  {
    hide Join;
    events := [AddNamespace("n"), AddPrincipal("p"),
               CreateGrant("g", "p", RESOURCE_NAMESPACE, "n", {READ}), RemovePrincipal("p")];
    assert events[..3][..2][..1][..0] == [] && events[..3][..2][..1] == [events[0]];
    var s1 := Step(l, START, events[0]);
    var s2 := Step(l, s1, events[1]);
    var s3 := Step(l, s2, events[2]);
    assert Run(l, events[..3][..2][..1]) == s1;
    assert Run(l, events[..3][..2]) == s2;
    assert Run(l, events[..3]) == s3;
    GrantedOnce(l, s2, events[2]);
    RemovalKeepsGrants(l, s3, "p");
  }

  lemma GrantedOnce(l: Library, s: State, e: Event)
    requires e.CreateGrant? && e.gid !in s.born && RequestGrant(l, s, e).Ok?
    ensures Holder(Step(l, s, e).t.grants, e.principal)
  {
    hide ALL_OPS, Join;
    var row := Grant(e.gid, e.principal, e.rtype, e.resource, Join(Tokens.Sorted(l, e.ops), ','));
    var grants := UpsertGrant(s.t, row).0.grants;
    var i := FindTarget(s.t.grants, row);
    assert grants[i] in grants && grants[i].principal == e.principal;
  }

  // ---------------------------------------------------------- stale guards ----

  /**
    The guard reads the principal and the resource before the upsert's transaction. A row
    that passed earlier may still be stored, without breaking what runs keep, exactly if its
    key, and for dangling its principal, is there at that moment.
   */
  lemma StaleGrant(s: State, row: Grant)
    requires Inv(s) && NoneDangles(s) && OpsOf(row) != {} && OpsOf(row) <= ALL_OPS
    requires row.rtype == RESOURCE_KEY || (row.rtype == RESOURCE_NAMESPACE && row.resource in s.namespaces)
    ensures var s' := s.(t := UpsertGrant(s.t, row).0, born := s.born + {row.id});
      && (Inv(s') <==> (row.rtype == RESOURCE_KEY ==> row.resource in s.t.keys))
      && (NoneDangles(s') <==> row.principal in s.principals)
  {
    hide ALL_OPS, OpsOf, FindTarget, OnePerResource;
    var s' := s.(t := UpsertGrant(s.t, row).0, born := s.born + {row.id});
    var i := FindTarget(s.t.grants, row);
    var grants := s'.t.grants;
    assert grants[i] in grants && SameTarget(grants[i], row);
    if row.rtype == RESOURCE_KEY && row.resource !in s.t.keys {
      assert !GrantOk(s', grants[i]);
    } else {
      UpsertKeepsInv(s, row);
    }
    forall principal | Holder(grants, principal)
      ensures Holder(s.t.grants, principal) || principal == row.principal
    {
      var k :| 0 <= k < |grants| && grants[k].principal == principal;
      if k < |s.t.grants| {
        assert s.t.grants[k] in s.t.grants;
      }
    }
  }
}
