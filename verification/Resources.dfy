/** Resource metadata: what the stores know about a table. */
module Resources {
  import opened Wrappers

  datatype FieldMeta = FieldMeta(sqlName: string, password: bool, searchable: bool, sortable: bool,
                                 filterable: bool, readonly: bool, hidden: bool)

  /** An empty tenant key means the resource is not tenant-scoped. */
  datatype ResourceMeta = ResourceMeta(table: string, primaryKey: string, tenantKey: string,
                                       defaultSort: string, fields: seq<FieldMeta>)

  /** The first field with the given column name. */
  function FieldBySQLName(fields: seq<FieldMeta>, name: string): (f: Option<FieldMeta>)
    ensures f.Some? ==> f.value in fields && f.value.sqlName == name
    ensures f.None? ==> forall i :: 0 <= i < |fields| ==> fields[i].sqlName != name
  {
    if fields == [] then None
    else if fields[0].sqlName == name then Some(fields[0])
    else FieldBySQLName(fields[1..], name)
  }

  predicate HasColumn(r: ResourceMeta, name: string) { FieldBySQLName(r.fields, name).Some? }

  function VisibleColumns(fields: seq<FieldMeta>): (names: seq<string>)
    ensures forall c :: c in names <==> exists i :: 0 <= i < |fields| && fields[i].sqlName == c && !fields[i].hidden
  {
    if fields == [] then []
    else
      var rest := VisibleColumns(fields[1..]);
      assert forall i :: 1 <= i < |fields| ==> fields[i] == fields[1..][i - 1];
      assert forall c :: c in rest ==> exists i :: 1 <= i < |fields| && fields[i].sqlName == c && !fields[i].hidden;
      if fields[0].hidden then rest else [fields[0].sqlName] + rest
  }

  const SUPER_ADMIN := "super_admin"

  predicate Scoped(r: ResourceMeta, role: string) { r.tenantKey != "" && role != SUPER_ADMIN }

  predicate DistinctColumns(r: ResourceMeta) {
    forall i, j :: 0 <= i < j < |r.fields| ==> r.fields[i].sqlName != r.fields[j].sqlName
  }

  /** The resources the store laws are about: distinct columns, a visible primary key and a
      declared tenant key that are different columns and not passwords or the update stamp. */
  predicate WellFormed(r: ResourceMeta) {
    && DistinctColumns(r)
    && HasColumn(r, r.primaryKey) && !FieldBySQLName(r.fields, r.primaryKey).value.hidden
    && !FieldBySQLName(r.fields, r.primaryKey).value.password && r.primaryKey != "updated_at"
    && (r.tenantKey != "" ==>
        && HasColumn(r, r.tenantKey) && !FieldBySQLName(r.fields, r.tenantKey).value.password
        && r.tenantKey != r.primaryKey && r.tenantKey != "updated_at")
  }
}
