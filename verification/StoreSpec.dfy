/** What the store operations promise, as functions of a table: visibility under a tenant and
    role, the row a create stores, the overlay an update applies, and bulk deletion. */
module StoreSpec {
  import opened Wrappers
  import opened Resources
  import opened SqlSyntax
  import opened SqlMeaning
  import opened ListFilters
  import Pagination

  datatype StoreError =
    | NotFound
    | NotFilterable(field: string)
    | UnsupportedOperator(operator: string)
    | Rejected(reason: string)

  /** The table a resource is stored in: every declared column exists, keyed by the primary key. */
  ghost predicate Fits(r: ResourceMeta, t: Table) {
    ValidTable(t) && t.key == r.primaryKey && forall i :: 0 <= i < |r.fields| ==> r.fields[i].sqlName in t.columns
  }

  predicate InScope(r: ResourceMeta, row: Row, tenant: string, role: string) {
    Scoped(r, role) ==> Owned(r, tenant, row)
  }

  /** Whether an actor may see the row with this id. */
  predicate Sees(r: ResourceMeta, t: Table, id: string, tenant: string, role: string) {
    id in t.rows && InScope(r, t.rows[id], tenant, role)
  }

  /** The columns of a row a client is shown. */
  function Shows(r: ResourceMeta, row: Row): Row { Project(Named(VisibleColumns(r.fields)), row) }

  function GetSpec(r: ResourceMeta, t: Table, id: string, tenant: string, role: string): Result<Row, StoreError> {
    if Sees(r, t, id, tenant, role) then Success(Shows(r, t.rows[id])) else Failure(NotFound)
  }

  /******* Passwords *******/

  /** How a column's plaintext is hashed in one call; every call may salt differently. */
  type Hasher = (string, string) -> string

  /** The text form of any value, with Go's spelling of nil. */
  function Sprint(v: Value): string { if v.Null? then "<nil>" else TextOf(v) }

  function Stored(f: FieldMeta, v: Value, hash: Hasher): Value {
    if f.password then Str(hash(f.sqlName, Sprint(v))) else v
  }

  /******* Create *******/

  predicate Missing(input: Row, c: string) { c !in input || input[c].Null? }

  /** The input with key, tenant and time stamps filled in. */
  function Completed(r: ResourceMeta, tenant: string, input: Row, now: int, freshId: string): Row {
    var a := if Missing(input, r.primaryKey) then input[r.primaryKey := Str(freshId)] else input;
    var b := if r.tenantKey != "" then a[r.tenantKey := Str(tenant)] else a;
    var c := if HasColumn(r, "created_at") && Missing(b, "created_at") then b["created_at" := Int(now)] else b;
    if HasColumn(r, "updated_at") && Missing(c, "updated_at") then c["updated_at" := Int(now)] else c
  }

  predicate Insertable(r: ResourceMeta, f: FieldMeta, input: Row) {
    (!f.hidden || f.sqlName == r.tenantKey) && f.sqlName in input
  }

  /** The row stored for a completed input; every other column takes its default. */
  function NewRow(r: ResourceMeta, t: Table, input: Row, hash: Hasher): Row {
    map c | c in t.columns ::
      var f := FieldBySQLName(r.fields, c);
      if f.Some? && Insertable(r, f.value, input) then Stored(f.value, input[c], hash) else DefaultOf(t, c)
  }

  /** Whether a create hashes a password of the completed input. */
  predicate HashesInserted(r: ResourceMeta, input: Row) {
    exists i :: 0 <= i < |r.fields| && r.fields[i].password && Insertable(r, r.fields[i], input)
  }

  /******* Update *******/

  predicate Writes(r: ResourceMeta, f: FieldMeta, input: Row) {
    !f.readonly && !f.hidden && f.sqlName != r.primaryKey && f.sqlName != r.tenantKey && f.sqlName in input
  }

  predicate HashesWritten(r: ResourceMeta, input: Row) {
    exists i :: 0 <= i < |r.fields| && r.fields[i].password && Writes(r, r.fields[i], input)
  }

  predicate WritesColumn(r: ResourceMeta, c: string, input: Row) {
    var f := FieldBySQLName(r.fields, c);
    f.Some? && Writes(r, f.value, input)
  }

  /** The old row overlaid with the writable input, and stamped. */
  function UpdatedRow(r: ResourceMeta, row: Row, input: Row, hash: Hasher, now: int): Row {
    map c | c in row ::
      if c == "updated_at" && HasColumn(r, c) then Int(now)
      else if WritesColumn(r, c, input) then Stored(FieldBySQLName(r.fields, c).value, input[c], hash)
      else row[c]
  }

  /** The statement assigns `updated_at` twice, the stamp last. */
  predicate StampClash(r: ResourceMeta, input: Row) { WritesColumn(r, "updated_at", input) }

  /******* Bulk deletion *******/

  function Without(t: Table, ids: seq<string>): Table {
    t.(rows := map id | id in t.rows && id !in ids :: t.rows[id])
  }

  predicate SeesAll(r: ResourceMeta, t: Table, ids: seq<string>, tenant: string, role: string) {
    forall i :: 0 <= i < |ids| ==> Sees(r, t, ids[i], tenant, role)
  }

  function ShowsAll(r: ResourceMeta, t: Table, ids: seq<string>): seq<Row>
    requires forall i :: 0 <= i < |ids| ==> ids[i] in t.rows
  {
    seq(|ids|, i requires 0 <= i < |ids| => Shows(r, t.rows[ids[i]]))
  }

  /******* Listing *******/

  /** The answer to one page of a list request. */
  datatype Listing = Listing(records: seq<Row>, total: nat)

  /** The ids of the wanted rows, each once. */
  ghost predicate IsListing(pg: bool, le: Order, r: ResourceMeta, t: Table, tenant: string, role: string,
                            search: string, filters: map<string, string>, ids: seq<string>)
  {
    && Distinct(ids) && (forall i :: 0 <= i < |ids| ==> ids[i] in t.rows)
    && forall id :: id in t.rows ==> (id in ids <==> Wanted(pg, r, tenant, role, search, filters, t.rows[id], le))
  }

  /** The offset of a page, in 64-bit arithmetic: a product that does not fit wraps around. */
  function OffsetOf(page: int, perPage: int): int { Pagination.Wrap64((page - 1) * perPage) }

  /** The offset is the one meant exactly when it fits 64 bits. */
  lemma OffsetExactly(page: int, perPage: int)
    requires 1 <= page && 1 <= perPage
    ensures OffsetOf(page, perPage) == (page - 1) * perPage <==> (page - 1) * perPage <= Pagination.MAX_INT
  {
    Pagination.ProductNatural(page - 1, perPage);
    Pagination.WrapExact((page - 1) * perPage);
  }

  function PageFrom(r: ResourceMeta, t: Table, ids: seq<string>, page: int, perPage: int): Listing
    requires forall i :: 0 <= i < |ids| ==> ids[i] in t.rows
  {
    Listing(ShowsAll(r, t, Slice(ids, OffsetOf(page, perPage), perPage)), |ids|)
  }

  /******* Operations as steps on a table *******/

  datatype Step =
    | DoGet(id: string)
    | DoCreate(input: Row, now: int, freshId: string, hash: Hasher)
    | DoUpdate(id: string, input: Row, now: int, hash: Hasher)
    | DoDelete(id: string)
    | DoDeleteMany(ids: seq<string>)

  datatype Actor = Actor(tenant: string, role: string)

  datatype Outcome = Failed | Shown(rows: seq<Row>)

  /** Whether a bulk delete goes through.  The Postgres store reads inside its transaction, so a
      repeated id stops it; the database/sql store reads past its transaction. */
  predicate Deletable(pg: bool, r: ResourceMeta, t: Table, ids: seq<string>, a: Actor) {
    (pg ==> Distinct(ids)) && SeesAll(r, t, ids, a.tenant, a.role)
  }

  /** Whether an update goes through: Postgres refuses to assign the stamp twice. */
  predicate Updatable(pg: bool, r: ResourceMeta, t: Table, id: string, input: Row, a: Actor) {
    Sees(r, t, id, a.tenant, a.role) && !(pg && StampClash(r, input))
  }

  /** What an operation of the Postgres store (pg) or of the database/sql store answers, when no
      call to the database fails. */
  function Answers(pg: bool, r: ResourceMeta, t: Table, a: Actor, op: Step): Outcome
    requires WellFormed(r)
  {
    match op
    case DoGet(id) => if Sees(r, t, id, a.tenant, a.role) then Shown([Shows(r, t.rows[id])]) else Failed
    case DoCreate(input, now, freshId, hash) =>
      var full := Completed(r, a.tenant, input, now, freshId);
      if TextOf(full[r.primaryKey]) in t.rows then Failed else Shown([Shows(r, NewRow(r, t, full, hash))])
    case DoUpdate(id, input, now, hash) =>
      if !Updatable(pg, r, t, id, input, a) then Failed
      else Shown([Shows(r, t.rows[id]), Shows(r, UpdatedRow(r, t.rows[id], input, hash, now))])
    case DoDelete(id) => if Sees(r, t, id, a.tenant, a.role) then Shown([Shows(r, t.rows[id])]) else Failed
    case DoDeleteMany(ids) => if Deletable(pg, r, t, ids, a) then Shown(ShowsAll(r, t, ids)) else Failed
  }

  /** The table an operation leaves. */
  function After(pg: bool, r: ResourceMeta, t: Table, a: Actor, op: Step): Table
    requires WellFormed(r)
  {
    match op
    case DoGet(_) => t
    case DoCreate(input, now, freshId, hash) =>
      var full := Completed(r, a.tenant, input, now, freshId);
      if TextOf(full[r.primaryKey]) in t.rows then t
      else t.(rows := t.rows[TextOf(full[r.primaryKey]) := NewRow(r, t, full, hash)])
    case DoUpdate(id, input, now, hash) =>
      if !Updatable(pg, r, t, id, input, a) then t
      else t.(rows := t.rows[id := UpdatedRow(r, t.rows[id], input, hash, now)])
    case DoDelete(id) => if Sees(r, t, id, a.tenant, a.role) then Without(t, [id]) else t
    case DoDeleteMany(ids) => if Deletable(pg, r, t, ids, a) then Without(t, ids) else t
  }

  /** Results of the store methods, as outcomes. */
  function OneRow(res: Result<Row, StoreError>): Outcome { if res.Success? then Shown([res.value]) else Failed }

  function TwoRows(res: Result<(Row, Row), StoreError>): Outcome {
    if res.Success? then Shown([res.value.0, res.value.1]) else Failed
  }

  function ManyRows(res: Result<seq<Row>, StoreError>): Outcome { if res.Success? then Shown(res.value) else Failed }
}
