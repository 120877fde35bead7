/** Laws of the store operations over whole runs: tenants are separated, an actor's results
    depend on the actor's own rows, an update is a lawful overlay, a created row is found
    again, and the bulk deletions agree exactly when no id repeats. */
module StoreLaws {
  import opened Text
  import opened Resources
  import opened SqlMeaning
  import opened ListFilters
  import opened StoreSpec
  import opened StoreOutcomes
  import opened StoreStatements

  /******* Runs *******/

  datatype Action = Action(actor: Actor, op: Step)

  function Run(pg: bool, r: ResourceMeta, t: Table, actions: seq<Action>): Table
    requires WellFormed(r)
    decreases |actions|
  {
    if actions == [] then t else Run(pg, r, After(pg, r, t, actions[0].actor, actions[0].op), actions[1..])
  }

  function Outcomes(pg: bool, r: ResourceMeta, t: Table, actions: seq<Action>): seq<Outcome>
    requires WellFormed(r)
    decreases |actions|
  {
    if actions == [] then []
    else
      var a, op := actions[0].actor, actions[0].op;
      [Answers(pg, r, t, a, op)] + Outcomes(pg, r, After(pg, r, t, a, op), actions[1..])
  }

  lemma StepKeepsFit(pg: bool, r: ResourceMeta, t: Table, a: Actor, op: Step)
    requires WellFormed(r) && Fits(r, t)
    ensures var after := After(pg, r, t, a, op);
      Fits(r, after) && after.key == t.key && after.columns == t.columns && after.defaults == t.defaults
  {
    hide NewRow, UpdatedRow, WellFormed;
    match op
    case DoGet(_) =>
    case DoCreate(input, now, freshId, hash) =>
      InsertKeepsValid(r, t, Completed(r, a.tenant, input, now, freshId), hash);
    case DoUpdate(id, input, now, hash) =>
      if Sees(r, t, id, a.tenant, a.role) { UpdateKeepsValid(r, t, id, input, hash, now); }
    case DoDelete(_) =>
    case DoDeleteMany(_) =>
  }

  /******* Tenant separation *******/

  /** The rows of one tenant. */
  function OwnRows(r: ResourceMeta, t: Table, tenant: string): map<string, Row> {
    map id | id in t.rows && Owned(r, tenant, t.rows[id]) :: t.rows[id]
  }

  /** The key a create stores under. */
  function NewKey(r: ResourceMeta, a: Actor, op: Step): string
    requires WellFormed(r) && op.DoCreate?
  {
    TextOf(Completed(r, a.tenant, op.input, op.now, op.freshId)[r.primaryKey])
  }

  /** A created row carries its creator's tenant. */
  lemma CreateOwns(r: ResourceMeta, t: Table, tenant: string, input: Row, now: int, freshId: string, hash: Hasher)
    requires WellFormed(r) && r.tenantKey != "" && Fits(r, t)
    ensures Owned(r, tenant, NewRow(r, t, Completed(r, tenant, input, now, freshId), hash))
  {
    var full := Completed(r, tenant, input, now, freshId);
    var f := FieldBySQLName(r.fields, r.tenantKey).value;
    assert f in r.fields && r.tenantKey in t.columns;
    assert full[r.tenantKey] == Str(tenant) && Insertable(r, f, full);
  }

  lemma UpdateKeepsOwner(r: ResourceMeta, row: Row, tenant: string, input: Row, hash: Hasher, now: int)
    requires WellFormed(r) && r.tenantKey != ""
    ensures Owned(r, tenant, UpdatedRow(r, row, input, hash, now)) <==> Owned(r, tenant, row)
  {}

  /** An operation of a scoped actor leaves every row alone that is not the actor's tenant's, be it
      another tenant's or nobody's; it adds at most a created row, which is its own tenant's, and
      its own tenant's rows stay so. */
  lemma StepFrames(pg: bool, r: ResourceMeta, t: Table, a: Actor, op: Step, id: string)
    requires WellFormed(r) && Fits(r, t) && r.tenantKey != "" && a.role != "super_admin"
    ensures var after := After(pg, r, t, a, op).rows;
      && (id in t.rows && !Owned(r, a.tenant, t.rows[id]) ==> id in after && after[id] == t.rows[id])
      && (id in after && (id in t.rows ==> Owned(r, a.tenant, t.rows[id])) ==> Owned(r, a.tenant, after[id]))
      && (id in after && id !in t.rows ==> op.DoCreate? && id == NewKey(r, a, op))
  {
    hide NewRow, UpdatedRow, Fits, WellFormed, Completed;
    match op
    case DoGet(_) =>
    case DoCreate(input, now, freshId, hash) => CreateOwns(r, t, a.tenant, input, now, freshId, hash);
    case DoUpdate(key, input, now, hash) =>
      if Sees(r, t, key, a.tenant, a.role) { UpdateKeepsOwner(r, t.rows[key], a.tenant, input, hash, now); }
    case DoDelete(_) =>
    case DoDeleteMany(_) =>
  }

  /** An operation of a scoped actor leaves every other tenant's rows alone. */
  lemma StepSeparates(pg: bool, r: ResourceMeta, t: Table, a: Actor, op: Step, other: string)
    requires WellFormed(r) && Fits(r, t) && r.tenantKey != "" && a.role != "super_admin" && a.tenant != other
    ensures OwnRows(r, After(pg, r, t, a, op), other) == OwnRows(r, t, other)
  {
    hide After, Fits, WellFormed;
    forall id { StepFrames(pg, r, t, a, op, id); }
  }

  /** Over a whole run of scoped actors, a row that is none of their tenants' stays as it is. */
  lemma {:induction false} RunFrames(pg: bool, r: ResourceMeta, t: Table, actions: seq<Action>, id: string)
    requires WellFormed(r) && Fits(r, t) && id in t.rows && r.tenantKey != ""
    requires forall i :: 0 <= i < |actions| ==>
      actions[i].actor.role != "super_admin" && !Owned(r, actions[i].actor.tenant, t.rows[id])
    ensures id in Run(pg, r, t, actions).rows && Run(pg, r, t, actions).rows[id] == t.rows[id]
    decreases |actions|
  {
    if actions != [] {
      hide After, Fits, WellFormed;
      StepFrames(pg, r, t, actions[0].actor, actions[0].op, id);
      StepKeepsFit(pg, r, t, actions[0].actor, actions[0].op);
      RunFrames(pg, r, After(pg, r, t, actions[0].actor, actions[0].op), actions[1..], id);
    }
  }

  /** Over a whole run by any scoped actors of other tenants, a tenant's rows stay as they are. */
  lemma {:induction false} RunSeparates(pg: bool, r: ResourceMeta, t: Table, actions: seq<Action>, other: string)
    requires WellFormed(r) && Fits(r, t) && r.tenantKey != ""
    requires forall i :: 0 <= i < |actions| ==>
      actions[i].actor.role != "super_admin" && actions[i].actor.tenant != other
    ensures OwnRows(r, Run(pg, r, t, actions), other) == OwnRows(r, t, other)
    decreases |actions|
  {
    if actions != [] {
      StepSeparates(pg, r, t, actions[0].actor, actions[0].op, other);
      StepKeepsFit(pg, r, t, actions[0].actor, actions[0].op);
      RunSeparates(pg, r, After(pg, r, t, actions[0].actor, actions[0].op), actions[1..], other);
    }
  }

  /******* An actor's results depend on the actor's rows *******/

  ghost predicate Agree(r: ResourceMeta, t: Table, u: Table, tenant: string) {
    t.key == u.key && t.columns == u.columns && t.defaults == u.defaults &&
      OwnRows(r, t, tenant) == OwnRows(r, u, tenant)
  }

  lemma AgreeSees(r: ResourceMeta, t: Table, u: Table, a: Actor, id: string)
    requires Scoped(r, a.role) && Agree(r, t, u, a.tenant)
    ensures Sees(r, t, id, a.tenant, a.role) <==> Sees(r, u, id, a.tenant, a.role)
    ensures Sees(r, t, id, a.tenant, a.role) ==> t.rows[id] == u.rows[id]
  {
    assert Sees(r, t, id, a.tenant, a.role) <==> id in OwnRows(r, t, a.tenant);
    assert Sees(r, u, id, a.tenant, a.role) <==> id in OwnRows(r, u, a.tenant);
    if id in OwnRows(r, t, a.tenant) { assert OwnRows(r, t, a.tenant)[id] == OwnRows(r, u, a.tenant)[id]; }
  }

  /** The only dependence on other tenants: a create's key must be free in the whole table. */
  predicate SameKeyFree(r: ResourceMeta, t: Table, u: Table, a: Actor, op: Step)
    requires WellFormed(r)
  {
    op.DoCreate? ==> (NewKey(r, a, op) in t.rows <==> NewKey(r, a, op) in u.rows)
  }

  lemma OwnWithout(r: ResourceMeta, t: Table, tenant: string, ids: seq<string>)
    ensures OwnRows(r, Without(t, ids), tenant) == map id | id in OwnRows(r, t, tenant) && id !in ids ::
      OwnRows(r, t, tenant)[id]
  {}

  lemma OwnUpdated(r: ResourceMeta, t: Table, tenant: string, id: string, row: Row)
    requires Owned(r, tenant, row)
    ensures OwnRows(r, t.(rows := t.rows[id := row]), tenant) == OwnRows(r, t, tenant)[id := row]
  {}

  lemma NewRowAgrees(r: ResourceMeta, t: Table, u: Table, full: Row, hash: Hasher)
    requires t.columns == u.columns && t.defaults == u.defaults
    ensures NewRow(r, t, full, hash) == NewRow(r, u, full, hash)
  {}

  lemma CreateAgrees(r: ResourceMeta, t: Table, u: Table, a: Actor, input: Row, now: int, freshId: string, hash: Hasher)
    requires WellFormed(r) && Fits(r, t) && Fits(r, u) && Scoped(r, a.role) && Agree(r, t, u, a.tenant)
    ensures var full := Completed(r, a.tenant, input, now, freshId);
      var id, row := TextOf(full[r.primaryKey]), NewRow(r, t, full, hash);
      NewRow(r, u, full, hash) == row &&
        Agree(r, t.(rows := t.rows[id := row]), u.(rows := u.rows[id := row]), a.tenant)
  {
    var full := Completed(r, a.tenant, input, now, freshId);
    assert r.primaryKey in full && !full[r.primaryKey].Null?;
    hide Completed, NewRow, OwnRows, Owned, WellFormed, Fits;
    var id, row := TextOf(full[r.primaryKey]), NewRow(r, t, full, hash);
    CreateOwns(r, t, a.tenant, input, now, freshId, hash);
    NewRowAgrees(r, t, u, full, hash);
    OwnUpdated(r, t, a.tenant, id, row);
    OwnUpdated(r, u, a.tenant, id, row);
  }

  lemma UpdateAgrees(r: ResourceMeta, t: Table, u: Table, a: Actor, id: string, input: Row, now: int, hash: Hasher)
    requires WellFormed(r) && Scoped(r, a.role) && Agree(r, t, u, a.tenant)
    requires Sees(r, t, id, a.tenant, a.role) && id in u.rows && u.rows[id] == t.rows[id]
    ensures var row := UpdatedRow(r, t.rows[id], input, hash, now);
      Agree(r, t.(rows := t.rows[id := row]), u.(rows := u.rows[id := row]), a.tenant)
  {
    var row := UpdatedRow(r, t.rows[id], input, hash, now);
    UpdateKeepsOwner(r, t.rows[id], a.tenant, input, hash, now);
    OwnUpdated(r, t, a.tenant, id, row);
    OwnUpdated(r, u, a.tenant, id, row);
  }

  lemma OtherStepsAgree(pg: bool, r: ResourceMeta, t: Table, u: Table, a: Actor, op: Step)
    requires WellFormed(r) && Fits(r, t) && Fits(r, u) && Scoped(r, a.role)
    requires Agree(r, t, u, a.tenant) && !op.DoCreate?
    ensures Answers(pg, r, t, a, op) == Answers(pg, r, u, a, op)
    ensures Agree(r, After(pg, r, t, a, op), After(pg, r, u, a, op), a.tenant)
  {
    hide Completed, NewRow, UpdatedRow, WellFormed, Fits;
    match op
    case DoGet(id) => AgreeSees(r, t, u, a, id);
    case DoUpdate(id, input, now, hash) =>
      AgreeSees(r, t, u, a, id);
      if Sees(r, t, id, a.tenant, a.role) { UpdateAgrees(r, t, u, a, id, input, now, hash); }
    case DoDelete(id) =>
      AgreeSees(r, t, u, a, id);
      OwnWithout(r, t, a.tenant, [id]);
      OwnWithout(r, u, a.tenant, [id]);
    case DoDeleteMany(ids) =>
      forall i | 0 <= i < |ids| { AgreeSees(r, t, u, a, ids[i]); }
      OwnWithout(r, t, a.tenant, ids);
      OwnWithout(r, u, a.tenant, ids);
  }

  /** A row the actor's tenant owns in one table and that has no place in the other tells them apart. */
  lemma OneSided(r: ResourceMeta, t: Table, u: Table, tenant: string, id: string)
    requires id in t.rows && Owned(r, tenant, t.rows[id]) && id !in u.rows
    ensures !Agree(r, t, u, tenant) && !Agree(r, u, t, tenant)
  {
    assert id in OwnRows(r, t, tenant) && id !in OwnRows(r, u, tenant);
  }

  /** A create whose key is taken in t and free in u. */
  lemma CreateTells(pg: bool, r: ResourceMeta, t: Table, u: Table, a: Actor, op: Step)
    requires WellFormed(r) && Fits(r, t) && Fits(r, u) && Scoped(r, a.role) && Agree(r, t, u, a.tenant)
    requires op.DoCreate? && NewKey(r, a, op) in t.rows && NewKey(r, a, op) !in u.rows
    ensures Answers(pg, r, t, a, op) == Failed && Answers(pg, r, u, a, op) != Failed
    ensures var x, y := After(pg, r, t, a, op), After(pg, r, u, a, op);
      x == t && !Agree(r, x, y, a.tenant) && !Agree(r, y, x, a.tenant)
  {
    var id := NewKey(r, a, op);
    CreateOwns(r, u, a.tenant, op.input, op.now, op.freshId, op.hash);
    if Owned(r, a.tenant, t.rows[id]) {
      OneSided(r, t, u, a.tenant, id);
      assert false;
    }
    hide Completed, NewRow, WellFormed, Fits, Owned;
    var y := After(pg, r, u, a, op);
    assert id in OwnRows(r, y, a.tenant) && id !in OwnRows(r, t, a.tenant);
  }

  lemma AgreeTurned(r: ResourceMeta, t: Table, u: Table, tenant: string)
    ensures Agree(r, t, u, tenant) <==> Agree(r, u, t, tenant)
  {}

  /** Two databases that agree on the actor's rows answer alike, and agree afterwards, exactly when the
      key of a create is free in both or taken in both. */
  lemma StepAgrees(pg: bool, r: ResourceMeta, t: Table, u: Table, a: Actor, op: Step)
    requires WellFormed(r) && Fits(r, t) && Fits(r, u) && Agree(r, t, u, a.tenant)
    requires r.tenantKey != "" && a.role != "super_admin"
    ensures Answers(pg, r, t, a, op) == Answers(pg, r, u, a, op) <==> SameKeyFree(r, t, u, a, op)
    ensures Agree(r, After(pg, r, t, a, op), After(pg, r, u, a, op), a.tenant) <==> SameKeyFree(r, t, u, a, op)
  {
    if !op.DoCreate? {
      OtherStepsAgree(pg, r, t, u, a, op);
    } else {
      CreateAgrees(r, t, u, a, op.input, op.now, op.freshId, op.hash);
      AgreeTurned(r, t, u, a.tenant);
      hide Agree, Completed, NewRow, WellFormed, Fits;
      if NewKey(r, a, op) in t.rows && NewKey(r, a, op) !in u.rows { CreateTells(pg, r, t, u, a, op); }
      if NewKey(r, a, op) in u.rows && NewKey(r, a, op) !in t.rows { CreateTells(pg, r, u, t, a, op); }
    }
  }

  lemma GivenKey(r: ResourceMeta, a: Actor, id: string, input: Row, now: int, freshId: string, hash: Hasher)
    requires WellFormed(r)
    ensures NewKey(r, a, DoCreate(input[r.primaryKey := Str(id)], now, freshId, hash)) == id
  {}

  lemma WithoutOthers(r: ResourceMeta, t: Table, tenant: string, id: string)
    requires id in t.rows && !Owned(r, tenant, t.rows[id])
    ensures Agree(r, t, Without(t, [id]), tenant)
  {
    OwnWithout(r, t, tenant, [id]);
    assert OwnRows(r, Without(t, [id]), tenant) == OwnRows(r, t, tenant);
  }

  /** So a create under a key that another tenant holds, or nobody, tells a scoped actor that it is
      held, although the row cannot be seen: without that row all that the actor sees is the same, and
      the create goes through. */
  lemma TakenKeyShows(pg: bool, r: ResourceMeta, t: Table, a: Actor, id: string, input: Row, now: int, freshId: string,
                      hash: Hasher)
    requires WellFormed(r) && Fits(r, t) && id in t.rows && !Owned(r, a.tenant, t.rows[id])
    requires r.tenantKey != "" && a.role != "super_admin"
    ensures var u, op := Without(t, [id]), DoCreate(input[r.primaryKey := Str(id)], now, freshId, hash);
      && Fits(r, u) && !Sees(r, t, id, a.tenant, a.role) && Agree(r, t, u, a.tenant)
      && Answers(pg, r, t, a, op) == Failed && Answers(pg, r, u, a, op) != Failed
  {
    hide WellFormed, Fits, Owned, Agree, NewKey, Answers, After;
    var u, op := Without(t, [id]), DoCreate(input[r.primaryKey := Str(id)], now, freshId, hash);
    GivenKey(r, a, id, input, now, freshId, hash);
    DeleteKeepsValid(r, t, [id]);
    WithoutOthers(r, t, a.tenant, id);
    CreateTells(pg, r, t, u, a, op);
  }

  /** The actions of one tenant's actors. */
  function Only(actions: seq<Action>, tenant: string): seq<Action> {
    if actions == [] then []
    else (if actions[0].actor.tenant == tenant then [actions[0]] else []) + Only(actions[1..], tenant)
  }

  /** What one tenant's actors are answered in a run of all actions. */
  function OutcomesFor(pg: bool, r: ResourceMeta, t: Table, actions: seq<Action>, tenant: string): seq<Outcome>
    requires WellFormed(r)
    decreases |actions|
  {
    if actions == [] then []
    else
      var a, op := actions[0].actor, actions[0].op;
      (if a.tenant == tenant then [Answers(pg, r, t, a, op)] else []) +
        OutcomesFor(pg, r, After(pg, r, t, a, op), actions[1..], tenant)
  }

  /** Along a run from t with all actions and one from u with the tenant's only, each key the
      tenant creates is free in both or taken in both.  Runs without creates always qualify. */
  predicate KeysFreeAlike(pg: bool, r: ResourceMeta, t: Table, u: Table, actions: seq<Action>, tenant: string)
    requires WellFormed(r)
    decreases |actions|
  {
    actions == [] ||
    var a, op := actions[0].actor, actions[0].op;
    if a.tenant == tenant then
      SameKeyFree(r, t, u, a, op) &&
        KeysFreeAlike(pg, r, After(pg, r, t, a, op), After(pg, r, u, a, op), actions[1..], tenant)
    else KeysFreeAlike(pg, r, After(pg, r, t, a, op), u, actions[1..], tenant)
  }

  /** A run that starts with an action of the tenant. */
  lemma OwnFirst(pg: bool, r: ResourceMeta, t: Table, u: Table, actions: seq<Action>, tenant: string)
    requires WellFormed(r) && actions != [] && actions[0].actor.tenant == tenant
    ensures var a, op, rest := actions[0].actor, actions[0].op, actions[1..];
      var x, y := After(pg, r, t, a, op), After(pg, r, u, a, op);
      && OutcomesFor(pg, r, t, actions, tenant) == [Answers(pg, r, t, a, op)] + OutcomesFor(pg, r, x, rest, tenant)
      && Outcomes(pg, r, u, Only(actions, tenant)) ==
        [Answers(pg, r, u, a, op)] + Outcomes(pg, r, y, Only(rest, tenant))
      && (KeysFreeAlike(pg, r, t, u, actions, tenant) <==>
            SameKeyFree(r, t, u, a, op) && KeysFreeAlike(pg, r, x, y, rest, tenant))
      && Run(pg, r, t, actions) == Run(pg, r, x, rest)
      && Run(pg, r, u, Only(actions, tenant)) == Run(pg, r, y, Only(rest, tenant))
  {
    hide After, Answers, WellFormed, SameKeyFree;
    assert Only(actions, tenant)[1..] == Only(actions[1..], tenant);
  }

  /** A run that starts with somebody else's action. */
  lemma OtherFirst(pg: bool, r: ResourceMeta, t: Table, u: Table, actions: seq<Action>, tenant: string)
    requires WellFormed(r) && actions != [] && actions[0].actor.tenant != tenant
    ensures var x, rest := After(pg, r, t, actions[0].actor, actions[0].op), actions[1..];
      && OutcomesFor(pg, r, t, actions, tenant) == OutcomesFor(pg, r, x, rest, tenant)
      && Only(actions, tenant) == Only(rest, tenant)
      && (KeysFreeAlike(pg, r, t, u, actions, tenant) <==> KeysFreeAlike(pg, r, x, u, rest, tenant))
      && Run(pg, r, t, actions) == Run(pg, r, x, rest)
  {
    hide After, Answers, WellFormed, SameKeyFree;
    var x, rest := After(pg, r, t, actions[0].actor, actions[0].op), actions[1..];
    assert [] + Only(rest, tenant) == Only(rest, tenant);
    assert [] + OutcomesFor(pg, r, x, rest, tenant) == OutcomesFor(pg, r, x, rest, tenant);
  }

  /** Whether other tenants can be noticed: what a tenant's actors are answered amid any actions of
      scoped actors is what they would be answered alone, from any table that agrees on their rows,
      exactly when the keys they create are free alike. */
  lemma {:induction false} RunsAgree(pg: bool, r: ResourceMeta, t: Table, u: Table, actions: seq<Action>,
                                     tenant: string)
    requires WellFormed(r) && Fits(r, t) && Fits(r, u) && Agree(r, t, u, tenant)
    requires r.tenantKey != "" && forall i :: 0 <= i < |actions| ==> actions[i].actor.role != "super_admin"
    ensures OutcomesFor(pg, r, t, actions, tenant) == Outcomes(pg, r, u, Only(actions, tenant))
       <==> KeysFreeAlike(pg, r, t, u, actions, tenant)
    ensures KeysFreeAlike(pg, r, t, u, actions, tenant) ==>
      Agree(r, Run(pg, r, t, actions), Run(pg, r, u, Only(actions, tenant)), tenant)
    decreases |actions|
  {
    if actions != [] {
      var a, op, rest := actions[0].actor, actions[0].op, actions[1..];
      var next := After(pg, r, t, a, op);
      StepKeepsFit(pg, r, t, a, op);
      if a.tenant == tenant {
        hide *;
        OwnFirst(pg, r, t, u, actions, tenant);
        StepAgrees(pg, r, t, u, a, op);
        StepKeepsFit(pg, r, u, a, op);
        if SameKeyFree(r, t, u, a, op) { RunsAgree(pg, r, next, After(pg, r, u, a, op), rest, tenant); }
        SameLists(Answers(pg, r, t, a, op), OutcomesFor(pg, r, next, rest, tenant), Answers(pg, r, u, a, op),
                  Outcomes(pg, r, After(pg, r, u, a, op), Only(rest, tenant)));
      } else {
        OtherFirst(pg, r, t, u, actions, tenant);
        StepSeparates(pg, r, t, a, op, tenant);
        assert Agree(r, next, u, tenant);
        hide *;
        RunsAgree(pg, r, next, u, rest, tenant);
      }
    }
  }

  lemma SameLists(x: Outcome, xs: seq<Outcome>, y: Outcome, ys: seq<Outcome>)
    ensures [x] + xs == [y] + ys <==> x == y && xs == ys
  {
    if [x] + xs == [y] + ys {
      assert ([x] + xs)[0] == ([y] + ys)[0] && ([x] + xs)[1..] == ([y] + ys)[1..];
    }
  }

  /** A create without a client's key stores under the fresh id. */
  lemma FreshKey(r: ResourceMeta, a: Actor, op: Step)
    requires WellFormed(r) && op.DoCreate? && Missing(op.input, r.primaryKey)
    ensures NewKey(r, a, op) == op.freshId
  {}

  lemma NewKeysOnly(pg: bool, r: ResourceMeta, t: Table, a: Actor, op: Step, id: string)
    requires WellFormed(r) && id !in t.rows && (op.DoCreate? ==> NewKey(r, a, op) != id)
    ensures id !in After(pg, r, t, a, op).rows
  {
    hide WellFormed, NewRow, UpdatedRow;
  }

  /** The tenant's creates come without a key of the client's, and their fresh ids are in neither table
      and not created before. */
  predicate FreshCreates(r: ResourceMeta, t: Table, u: Table, actions: seq<Action>, tenant: string)
    requires WellFormed(r)
  {
    forall i :: 0 <= i < |actions| && actions[i].actor.tenant == tenant && actions[i].op.DoCreate? ==>
      && Missing(actions[i].op.input, r.primaryKey)
      && actions[i].op.freshId !in t.rows && actions[i].op.freshId !in u.rows
      && forall j :: 0 <= j < i && actions[j].op.DoCreate? ==>
           NewKey(r, actions[j].actor, actions[j].op) != actions[i].op.freshId
  }

  lemma {:induction false} FreshCreatesAlike(pg: bool, r: ResourceMeta, t: Table, u: Table, actions: seq<Action>,
                                             tenant: string)
    requires WellFormed(r) && FreshCreates(r, t, u, actions, tenant)
    ensures KeysFreeAlike(pg, r, t, u, actions, tenant)
    decreases |actions|
  {
    if actions != [] {
      hide After, WellFormed, Missing;
      var a, op, rest := actions[0].actor, actions[0].op, actions[1..];
      var x, y := After(pg, r, t, a, op), if a.tenant == tenant then After(pg, r, u, a, op) else u;
      if a.tenant == tenant && op.DoCreate? { FreshKey(r, a, op); }
      forall i | 0 <= i < |rest| && rest[i].actor.tenant == tenant && rest[i].op.DoCreate?
        ensures Missing(rest[i].op.input, r.primaryKey)
        ensures rest[i].op.freshId !in x.rows && rest[i].op.freshId !in y.rows
        ensures forall j :: 0 <= j < i && rest[j].op.DoCreate? ==>
          NewKey(r, rest[j].actor, rest[j].op) != rest[i].op.freshId
      {
        assert rest[i] == actions[i + 1];
        NewKeysOnly(pg, r, t, a, op, rest[i].op.freshId);
        NewKeysOnly(pg, r, u, a, op, rest[i].op.freshId);
        forall j | 0 <= j < i && rest[j].op.DoCreate?
          ensures NewKey(r, rest[j].actor, rest[j].op) != rest[i].op.freshId
        {
          assert rest[j] == actions[j + 1];
        }
      }
      FreshCreatesAlike(pg, r, x, y, rest, tenant);
    }
  }

  lemma {:induction false} NoCreatesAlike(pg: bool, r: ResourceMeta, t: Table, u: Table, actions: seq<Action>,
                                          tenant: string)
    requires WellFormed(r)
    requires forall i :: 0 <= i < |actions| && actions[i].actor.tenant == tenant ==> !actions[i].op.DoCreate?
    ensures KeysFreeAlike(pg, r, t, u, actions, tenant)
    decreases |actions|
  {
    if actions != [] {
      hide After, WellFormed;
      var a, op := actions[0].actor, actions[0].op;
      NoCreatesAlike(pg, r, After(pg, r, t, a, op), if a.tenant == tenant then After(pg, r, u, a, op) else u,
                     actions[1..], tenant);
    }
  }

  /** A scoped listing is a listing of the actor's rows: agreeing databases list alike. */
  lemma ListingsAgree(pg: bool, le: Order, r: ResourceMeta, t: Table, u: Table, a: Actor, search: string,
                      filters: map<string, string>, ids: seq<string>, page: int, perPage: int)
    requires r.tenantKey != "" && a.role != "super_admin" && Agree(r, t, u, a.tenant)
    requires IsListing(pg, le, r, t, a.tenant, a.role, search, filters, ids)
    ensures IsListing(pg, le, r, u, a.tenant, a.role, search, filters, ids)
    ensures PageFrom(r, t, ids, page, perPage) == PageFrom(r, u, ids, page, perPage)
    ensures forall i :: 0 <= i < |ids| ==> Owned(r, a.tenant, t.rows[ids[i]])
  {
    forall i | 0 <= i < |ids|
      ensures Owned(r, a.tenant, t.rows[ids[i]]) && ids[i] in u.rows && u.rows[ids[i]] == t.rows[ids[i]]
    {
      assert ids[i] in ids;
      AgreeSees(r, t, u, a, ids[i]);
    }
    forall id | id in u.rows ensures id in ids <==> Wanted(pg, r, a.tenant, a.role, search, filters, u.rows[id], le) {
      AgreeSees(r, t, u, a, id);
      if Wanted(pg, r, a.tenant, a.role, search, filters, u.rows[id], le) { assert Sees(r, u, id, a.tenant, a.role); }
      if id in ids { var i :| 0 <= i < |ids| && ids[i] == id; }
    }
    var s := Slice(ids, OffsetOf(page, perPage), perPage);
    forall i | 0 <= i < |s| ensures t.rows[s[i]] == u.rows[s[i]] { assert s[i] in ids; }
  }

  /******* An update is a lawful overlay *******/

  /** An update that goes through changes one row: written columns take the input, key, tenant,
      readonly and hidden columns keep their values, the stamp takes the time, and the answer is
      the row before and after.  One that does not go through changes nothing. */
  lemma UpdateOverlays(pg: bool, r: ResourceMeta, t: Table, a: Actor, id: string, input: Row, now: int, hash: Hasher,
                       c: string)
    requires WellFormed(r)
    ensures var op := DoUpdate(id, input, now, hash);
      var after := After(pg, r, t, a, op);
      if !Updatable(pg, r, t, id, input, a) then after == t && Answers(pg, r, t, a, op) == Failed
      else
        && after.rows.Keys == t.rows.Keys
        && (forall other :: other in t.rows && other != id ==> after.rows[other] == t.rows[other])
        && Answers(pg, r, t, a, op) == Shown([Shows(r, t.rows[id]), Shows(r, after.rows[id])])
        && after.rows[id].Keys == t.rows[id].Keys
        && (c in t.rows[id] ==>
             after.rows[id][c] ==
               if !HasColumn(r, c) then t.rows[id][c]
               else if c == "updated_at" then Int(now)
               else if c !in input || c == r.primaryKey || c == r.tenantKey then t.rows[id][c]
               else
                 var f := FieldBySQLName(r.fields, c).value;
                 if f.readonly || f.hidden then t.rows[id][c]
                 else if f.password then Str(hash(c, Sprint(input[c]))) else input[c])
  {}

  /** A password column that get shows and update writes. */
  predicate OpenPassword(r: ResourceMeta, c: string) {
    var f := FieldBySQLName(r.fields, c);
    f.Some? && f.value.password && !f.value.readonly && !f.value.hidden && c != r.tenantKey && c != "updated_at"
  }

  function Stamped(r: ResourceMeta, row: Row, now: int): Row {
    if HasColumn(r, "updated_at") then row["updated_at" := Int(now)] else row
  }

  lemma ShownHas(r: ResourceMeta, row: Row, c: string)
    requires DistinctColumns(r) && HasColumn(r, c)
    ensures c in Shows(r, row) <==> !FieldBySQLName(r.fields, c).value.hidden
    ensures c in Shows(r, row) ==> Shows(r, row)[c] == Field(row, c)
  {
    var f := FieldBySQLName(r.fields, c).value;
    var j :| 0 <= j < |r.fields| && r.fields[j] == f;
    assert forall i :: 0 <= i < |r.fields| && r.fields[i].sqlName == c ==> i == j;
    assert c in VisibleColumns(r.fields) <==> !f.hidden;
  }

  /** What writing back a shown row leaves in each column. */
  lemma ShownWrites(r: ResourceMeta, row: Row, hash: Hasher, now: int, c: string)
    requires WellFormed(r) && c in row
    ensures var after := UpdatedRow(r, row, Shows(r, row), hash, now);
      after[c] == if OpenPassword(r, c) then Str(hash(c, Sprint(row[c]))) else Stamped(r, row, now)[c]
  {
    if HasColumn(r, c) {
      ShownHas(r, row, c);
      hide Shows;
    } else {
      hide Shows;
    }
  }

  lemma StampedKeeps(r: ResourceMeta, row: Row, input: Row, hash: Hasher, now: int)
    requires HasColumn(r, "updated_at") ==> "updated_at" in row
    ensures UpdatedRow(r, row, input, hash, now).Keys == row.Keys == Stamped(r, row, now).Keys
    ensures forall c :: c in row && c != "updated_at" ==> Stamped(r, row, now)[c] == row[c]
  {}

  /** In a row: exactly when hashing leaves the shown and written passwords as they are. */
  lemma ShownWritesItself(r: ResourceMeta, row: Row, hash: Hasher, now: int)
    requires WellFormed(r) && forall i :: 0 <= i < |r.fields| ==> r.fields[i].sqlName in row
    ensures UpdatedRow(r, row, Shows(r, row), hash, now) == Stamped(r, row, now)
       <==> forall c :: OpenPassword(r, c) ==> row[c] == Str(hash(c, Sprint(row[c])))
  {
    var after, stamped := UpdatedRow(r, row, Shows(r, row), hash, now), Stamped(r, row, now);
    forall c | OpenPassword(r, c) ensures c in row && c != "updated_at" {
      assert FieldBySQLName(r.fields, c).value in r.fields;
    }
    if HasColumn(r, "updated_at") { assert FieldBySQLName(r.fields, "updated_at").value in r.fields; }
    hide *;
    StampedKeeps(r, row, Shows(r, row), hash, now);
    forall c | c in row
      ensures after[c] == if OpenPassword(r, c) then Str(hash(c, Sprint(row[c]))) else stamped[c]
    {
      ShownWrites(r, row, hash, now, c);
    }
    if after == stamped {
      forall c | OpenPassword(r, c) ensures row[c] == Str(hash(c, Sprint(row[c]))) { assert after[c] == stamped[c]; }
    }
  }

  /** Writing back what a get answered changes the stamp and nothing else exactly when hashing leaves
      every stored password that get shows and update writes as it is.  Where Postgres refuses the
      stamp nothing changes. */
  lemma UpdateWithShown(pg: bool, r: ResourceMeta, t: Table, a: Actor, id: string, shown: Row, now: int, hash: Hasher)
    requires WellFormed(r) && Fits(r, t) && Answers(pg, r, t, a, DoGet(id)) == Shown([shown])
    ensures forall c :: OpenPassword(r, c) ==> c in t.rows[id]
    ensures var after, row := After(pg, r, t, a, DoUpdate(id, shown, now, hash)), t.rows[id];
      && (pg && StampClash(r, shown) ==> after == t)
      && (!(pg && StampClash(r, shown)) ==>
            (after == t.(rows := t.rows[id := Stamped(r, row, now)]) <==>
               forall c :: OpenPassword(r, c) ==> row[c] == Str(hash(c, Sprint(row[c])))))
  {
    var row := t.rows[id];
    assert ValidRow(t, id, row);
    ShownWritesItself(r, row, hash, now);
    forall c | OpenPassword(r, c) ensures c in row { assert FieldBySQLName(r.fields, c).value in r.fields; }
    hide UpdatedRow, WellFormed, Fits, StampClash, OpenPassword, Shows, Stamped;
    RowsSame(t.rows, id, UpdatedRow(r, row, shown, hash, now), Stamped(r, row, now));
  }

  /** What is written back for a password is the hash of the hash that get showed. */
  lemma ShownHashIsHashed(pg: bool, r: ResourceMeta, t: Table, a: Actor, id: string, shown: Row, now: int, hash: Hasher,
                          c: string)
    requires WellFormed(r) && Fits(r, t) && Answers(pg, r, t, a, DoGet(id)) == Shown([shown])
    requires OpenPassword(r, c) && !(pg && StampClash(r, shown))
    ensures c in t.rows[id] && c in shown && shown[c] == t.rows[id][c]
    ensures var after := After(pg, r, t, a, DoUpdate(id, shown, now, hash));
      id in after.rows && c in after.rows[id] && after.rows[id][c] == Str(hash(c, Sprint(shown[c])))
  {
    var row := t.rows[id];
    assert ValidRow(t, id, row) && FieldBySQLName(r.fields, c).value in r.fields;
    ShownHas(r, row, c);
    hide Shows, VisibleColumns;
    ShownWrites(r, row, hash, now, c);
  }

  /** Which of two hashers a column's last value went through. */
  function Later(second: Row, first: Hasher, later: Hasher): Hasher {
    (c, s) => if c in second then later(c, s) else first(c, s)
  }

  lemma OverlayTwice(r: ResourceMeta, row: Row, first: Row, second: Row, h1: Hasher, h2: Hasher, now: int, later: int)
    ensures UpdatedRow(r, UpdatedRow(r, row, first, h1, now), second, h2, later) ==
      UpdatedRow(r, row, first + second, Later(second, h1, h2), later)
  {}

  /** A password column an update writes. */
  predicate WritesPassword(r: ResourceMeta, c: string, input: Row) {
    WritesColumn(r, c, input) && FieldBySQLName(r.fields, c).value.password && !(c == "updated_at" && HasColumn(r, c))
  }

  /** Overlays by two hashers are the same exactly when these agree on the passwords written. */
  lemma OverlaysSame(r: ResourceMeta, row: Row, input: Row, g: Hasher, h: Hasher, now: int)
    requires forall c :: WritesPassword(r, c, input) ==> c in row
    ensures UpdatedRow(r, row, input, g, now) == UpdatedRow(r, row, input, h, now)
       <==> forall c :: WritesPassword(r, c, input) ==> g(c, Sprint(input[c])) == h(c, Sprint(input[c]))
  {
    var x, y := UpdatedRow(r, row, input, g, now), UpdatedRow(r, row, input, h, now);
    if x == y {
      forall c | WritesPassword(r, c, input) ensures g(c, Sprint(input[c])) == h(c, Sprint(input[c])) {
        assert x[c] == y[c];
      }
    }
  }

  /** Two updates in a row leave one row changed, by both overlays. */
  lemma UpdatesLeave(pg: bool, r: ResourceMeta, t: Table, a: Actor, id: string, first: Row, second: Row, h1: Hasher,
                     h2: Hasher, now: int, later: int)
    requires WellFormed(r) && Updatable(pg, r, t, id, first, a) && Updatable(pg, r, t, id, second, a)
    ensures After(pg, r, After(pg, r, t, a, DoUpdate(id, first, now, h1)), a, DoUpdate(id, second, later, h2)) ==
      t.(rows := t.rows[id := UpdatedRow(r, UpdatedRow(r, t.rows[id], first, h1, now), second, h2, later)])
  {
    if Scoped(r, a.role) { UpdateKeepsOwner(r, t.rows[id], a.tenant, first, h1, now); }
    hide UpdatedRow, WellFormed, StampClash, Owned, Shows;
    var once := UpdatedRow(r, t.rows[id], first, h1, now);
    var twice := UpdatedRow(r, once, second, h2, later);
    assert t.rows[id := once][id := twice] == t.rows[id := twice];
  }

  /** Two updates of a row, each with its own salts, are one update with the second input laid over the
      first exactly when that one hashes every password it writes as the call that sent it did. */
  lemma UpdateTwice(pg: bool, r: ResourceMeta, t: Table, a: Actor, id: string, first: Row, second: Row, h1: Hasher,
                    h2: Hasher, merged: Hasher, now: int, later: int)
    requires WellFormed(r) && Fits(r, t)
    requires Updatable(pg, r, t, id, first, a) && Updatable(pg, r, t, id, second, a)
    ensures After(pg, r, After(pg, r, t, a, DoUpdate(id, first, now, h1)), a, DoUpdate(id, second, later, h2))
         == After(pg, r, t, a, DoUpdate(id, first + second, later, merged))
       <==> forall c :: WritesPassword(r, c, first + second) ==>
              var v := Sprint((first + second)[c]);
              merged(c, v) == if c in second then h2(c, v) else h1(c, v)
  {
    var row := t.rows[id];
    assert Updatable(pg, r, t, id, first + second, a);
    assert ValidRow(t, id, row);
    forall c | WritesPassword(r, c, first + second) ensures c in row {
      assert FieldBySQLName(r.fields, c).value in r.fields;
    }
    hide UpdatedRow, WellFormed, Fits, StampClash, Updatable, ValidRow;
    UpdatesLeave(pg, r, t, a, id, first, second, h1, h2, now, later);
    OverlayTwice(r, row, first, second, h1, h2, now, later);
    OverlaysSame(r, row, first + second, Later(second, h1, h2), merged, later);
    RowsSame(t.rows, id, UpdatedRow(r, row, first + second, Later(second, h1, h2), later),
             UpdatedRow(r, row, first + second, merged, later));
  }

  lemma RowsSame(rows: map<string, Row>, id: string, x: Row, y: Row)
    ensures rows[id := x] == rows[id := y] <==> x == y
  {
    if rows[id := x] == rows[id := y] { assert rows[id := x][id] == rows[id := y][id]; }
  }

  /******* A created row is found again *******/

  /** What a get answers after a create: the row under the client's key, or under the fresh id when none is
      sent, as the create itself answered it.  Of each field that is not hidden it shows the client's value
      (the hash of a password), the key, the creator's tenant, the time of a missing stamp, or the default. */
  lemma CreateThenGet(pg: bool, r: ResourceMeta, t: Table, a: Actor, input: Row, now: int, freshId: string,
                      hash: Hasher, role: string, f: FieldMeta)
    requires WellFormed(r) && Fits(r, t) && f in r.fields && !f.hidden
    requires (if r.primaryKey in input && !input[r.primaryKey].Null?
              then TextOf(input[r.primaryKey]) else freshId) !in t.rows
    ensures var id, create := if r.primaryKey in input && !input[r.primaryKey].Null?
                              then TextOf(input[r.primaryKey]) else freshId, DoCreate(input, now, freshId, hash);
      var c, answer := f.sqlName, Answers(pg, r, t, a, create);
      var sent, default := c in input && !input[c].Null?, if c in t.defaults then t.defaults[c] else Null;
      var stamped := !sent && (c == "created_at" || c == "updated_at");
      var value := if stamped then Int(now) else if c in input then input[c] else Null;
      && Answers(pg, r, After(pg, r, t, a, create), Actor(a.tenant, role), DoGet(id)) == answer
      && answer.Shown? && |answer.rows| == 1 && c in answer.rows[0]
      && answer.rows[0][c] ==
           (if c == r.primaryKey then (if sent then input[c] else Str(freshId))
            else if r.tenantKey != "" && c == r.tenantKey then Str(a.tenant)
            else if !stamped && c !in input then default
            else if f.password then Str(hash(c, if value.Null? then "<nil>" else TextOf(value))) else value)
  {
    var id := if r.primaryKey in input && !input[r.primaryKey].Null? then TextOf(input[r.primaryKey]) else freshId;
    var after := After(pg, r, t, a, DoCreate(input, now, freshId, hash));
    FieldIsFirst(r, f);
    assert f.sqlName in t.columns;
    CreateExactly(pg, r, t, a, input, now, freshId, hash);
    CreatedColumn(pg, r, t, a, input, now, freshId, hash, id, f.sqlName);
    CreatedSeen(pg, r, t, a, input, now, freshId, hash, role, id);
    ShownHas(r, after.rows[id], f.sqlName);
  }

  lemma CreatedSeen(pg: bool, r: ResourceMeta, t: Table, a: Actor, input: Row, now: int, freshId: string, hash: Hasher,
                    role: string, id: string)
    requires WellFormed(r) && Fits(r, t) && id !in t.rows
    requires id in After(pg, r, t, a, DoCreate(input, now, freshId, hash)).rows
    ensures var after := After(pg, r, t, a, DoCreate(input, now, freshId, hash));
      Answers(pg, r, after, Actor(a.tenant, role), DoGet(id)) == Shown([Shows(r, after.rows[id])])
  {
    hide Shows, NewRow, Completed;
    if Scoped(r, role) { CreateOwns(r, t, a.tenant, input, now, freshId, hash); }
  }

  /******* Bulk deletion across stores *******/

  /** The two SQL stores take the same lists exactly when no id repeats or some id is unseen. */
  lemma BulkDeletesAgree(r: ResourceMeta, t: Table, ids: seq<string>, a: Actor)
    ensures (Deletable(true, r, t, ids, a) <==> Deletable(false, r, t, ids, a))
       <==> (Distinct(ids) || exists i :: 0 <= i < |ids| && !Sees(r, t, ids[i], a.tenant, a.role))
  {}

  /** The two SQL stores take the same updates exactly when the input does not write the stamp. */
  lemma UpdatesAgree(r: ResourceMeta, t: Table, id: string, input: Row, a: Actor)
    requires Sees(r, t, id, a.tenant, a.role)
    ensures (Updatable(true, r, t, id, input, a) <==> Updatable(false, r, t, id, input, a)) <==> !StampClash(r, input)
  {}

  /** Trimmed, without blanks, and each id once. */
  function Cleaned(ids: seq<string>): (r: seq<string>)
  {
    if ids == [] then []
    else
      var rest, id := Cleaned(ids[..|ids| - 1]), TrimSpace(ids[|ids| - 1]);
      if id == "" || id in rest then rest else rest + [id]
  }

  method CleanIDs(ids: seq<string>) returns (cleaned: seq<string>)
    ensures cleaned == Cleaned(ids)
  {
    var seen: set<string> := {};
    cleaned := [];
    for i := 0 to |ids|
      invariant cleaned == Cleaned(ids[..i]) && forall id :: id in seen <==> id in cleaned
    {
      assert ids[..i + 1][..i] == ids[..i];
      var id := TrimSpace(ids[i]);
      if id == "" || id in seen { continue; }
      seen := seen + {id};
      cleaned := cleaned + [id];
    }
    assert ids[..|ids|] == ids;
  }

  lemma {:induction false} CleanedIs(ids: seq<string>)
    ensures Distinct(Cleaned(ids))
    ensures forall id :: id in Cleaned(ids) <==> id != "" && exists i :: 0 <= i < |ids| && TrimSpace(ids[i]) == id
  {
    hide TrimSpace;
    if ids != [] {
      var n := |ids| - 1;
      CleanedIs(ids[..n]);
      assert forall i :: 0 <= i < n ==> ids[..n][i] == ids[i];
      forall id ensures id in Cleaned(ids) <==> id != "" && exists i :: 0 <= i < |ids| && TrimSpace(ids[i]) == id {
        if id != "" && id == TrimSpace(ids[n]) { assert id in Cleaned(ids); }
      }
    }
  }

  /** What the first n ids leave comes first. */
  lemma {:induction false} CleanedInOrder(ids: seq<string>, n: nat)
    requires n <= |ids|
    ensures Cleaned(ids[..n]) <= Cleaned(ids)
  {
    hide TrimSpace;
    if n == |ids| {
      assert ids[..n] == ids;
    } else {
      CleanedInOrder(ids[..|ids| - 1], n);
      assert ids[..|ids| - 1][..n] == ids[..n];
    }
  }

  /** A cleaned selection is deleted exactly when every trimmed non-blank id is seen. */
  lemma CleanedDeletable(r: ResourceMeta, t: Table, ids: seq<string>, a: Actor)
    ensures Deletable(true, r, t, Cleaned(ids), a)
       <==> forall i :: 0 <= i < |ids| && TrimSpace(ids[i]) != "" ==> Sees(r, t, TrimSpace(ids[i]), a.tenant, a.role)
    ensures Deletable(true, r, t, Cleaned(ids), a) <==> Deletable(false, r, t, Cleaned(ids), a)
  {
    CleanedIs(ids);
    var c := Cleaned(ids);
    forall i | 0 <= i < |ids| && TrimSpace(ids[i]) != "" ensures TrimSpace(ids[i]) in c {}
    if Deletable(true, r, t, c, a) {
      forall i | 0 <= i < |ids| && TrimSpace(ids[i]) != "" ensures Sees(r, t, TrimSpace(ids[i]), a.tenant, a.role) {
        var k :| 0 <= k < |c| && c[k] == TrimSpace(ids[i]);
      }
    } else {
      var k :| 0 <= k < |c| && !Sees(r, t, c[k], a.tenant, a.role);
      assert c[k] in c;
    }
  }
}
