/**
 Restoring a snapshot of six tables into the database (server/src/snapshot.rs; constraints of
 the tables in migrations/0001_initial.sql).
 */
module Restore {
  import opened Prelude

  // ---------------------------------------------------------------- tables and rows

  datatype Table = Nodes | Certificates | Routes | AclRules | Domains | Credentials

  /** A row: the fields that are checked or constrained, and the others as one text. */
  datatype Row =
    | NodeRow(id: string, name: string, other: string)
    | CertificateRow(id: string, other: string)
    | RouteRow(id: string, name: string, nodeId: string, targetHost: string, other: string)
    | AclRow(id: string, action: string, routeId: Option<string>, other: string)
    | DomainRow(id: string, hostname: string, routeId: Option<string>, certificateId: Option<string>, other: string)
    | CredentialRow(id: string, nodeId: string, secretHash: string, other: string)

  function TableFor(r: Row): Table {
    match r
    case NodeRow(_, _, _) => Nodes
    case CertificateRow(_, _) => Certificates
    case RouteRow(_, _, _, _, _) => Routes
    case AclRow(_, _, _, _) => AclRules
    case DomainRow(_, _, _, _, _) => Domains
    case CredentialRow(_, _, _, _) => Credentials
  }

  datatype Ref = Ref(table: Table, id: string)

  function RefTo(t: Table, id: Option<string>): seq<Ref> {
    if id.Some? then [Ref(t, id.value)] else []
  }

  /** What a row refers to. */
  function Refs(r: Row): seq<Ref> {
    match r
    case NodeRow(_, _, _) => []
    case CertificateRow(_, _) => []
    case RouteRow(_, _, nodeId, _, _) => [Ref(Nodes, nodeId)]
    case AclRow(_, _, routeId, _) => RefTo(Routes, routeId)
    case DomainRow(_, _, routeId, certificateId, _) => RefTo(Routes, routeId) + RefTo(Certificates, certificateId)
    case CredentialRow(_, nodeId, _, _) => [Ref(Nodes, nodeId)]
  }

  /** The fields that must not be blank. */
  function Required(r: Row): seq<string> {
    match r
    case NodeRow(id, name, _) => [id, name]
    case CertificateRow(_, _) => []
    case RouteRow(id, name, _, targetHost, _) => [id, name, targetHost]
    case AclRow(id, action, _, _) => [id, action]
    case DomainRow(id, hostname, _, _, _) => [id, hostname]
    case CredentialRow(id, nodeId, secretHash, _) => [id, nodeId, secretHash]
  }

  /** The field the database keeps unique, besides the id. */
  function Unique(r: Row): Option<string> {
    match r
    case NodeRow(_, name, _) => Some(name)
    case RouteRow(_, name, _, _, _) => Some(name)
    case DomainRow(_, hostname, _, _, _) => Some(hostname)
    case _ => None
  }

  /** Unicode white space. */
  predicate IsWhite(c: char) {
    var n := c as int;
    || 0x09 <= n <= 0x0D || n == 0x20 || n == 0x85 || n == 0xA0 || n == 0x1680
    || 0x2000 <= n <= 0x200A || n == 0x2028 || n == 0x2029 || n == 0x202F || n == 0x205F || n == 0x3000
  }

  /** Nothing is left after trimming. */
  predicate Blank(s: string) {
    forall i | 0 <= i < |s| :: IsWhite(s[i])
  }

  type Rows = map<string, Row>

  datatype Db = Db(nodes: Rows, certificates: Rows, routes: Rows, aclRules: Rows, domains: Rows, credentials: Rows)
  {
    function Get(t: Table): Rows {
      match t
      case Nodes => nodes
      case Certificates => certificates
      case Routes => routes
      case AclRules => aclRules
      case Domains => domains
      case Credentials => credentials
    }

    function Set(t: Table, rows: Rows): (db: Db)
      ensures db.Get(t) == rows && forall u | u != t :: db.Get(u) == Get(u)
    {
      match t
      case Nodes => this.(nodes := rows)
      case Certificates => this.(certificates := rows)
      case Routes => this.(routes := rows)
      case AclRules => this.(aclRules := rows)
      case Domains => this.(domains := rows)
      case Credentials => this.(credentials := rows)
    }
  }

  datatype Snapshot = Snapshot(
    nodes: seq<Row>, certificates: seq<Row>, routes: seq<Row>,
    aclRules: seq<Row>, domains: seq<Row>, credentials: seq<Row>)
  {
    function Of(t: Table): seq<Row> {
      match t
      case Nodes => nodes
      case Certificates => certificates
      case Routes => routes
      case AclRules => aclRules
      case Domains => domains
      case Credentials => credentials
    }

    ghost predicate Typed() {
      forall t, i | 0 <= i < |Of(t)| :: TableFor(Of(t)[i]) == t
    }
  }

  /** The order of the restore. */
  const Order: seq<Table> := [Nodes, Certificates, Routes, AclRules, Domains, Credentials]

  // ---------------------------------------------------------------- validation

  ghost predicate RefersWithin(s: Snapshot, ref: Ref) {
    exists i | 0 <= i < |s.Of(ref.table)| :: s.Of(ref.table)[i].id == ref.id
  }

  ghost predicate RowSound(s: Snapshot, r: Row) {
    && (forall k | 0 <= k < |Required(r)| :: !Blank(Required(r)[k]))
    && (forall k | 0 <= k < |Refs(r)| :: RefersWithin(s, Refs(r)[k]))
  }

  /** Nothing required is blank, and every reference stays within the snapshot. */
  ghost predicate Sound(s: Snapshot) {
    forall t, i | 0 <= i < |s.Of(t)| :: RowSound(s, s.Of(t)[i])
  }

  ghost predicate Has(rows: seq<Row>, id: string) {
    exists i | 0 <= i < |rows| :: rows[i].id == id
  }

  /** Sound, table by table and field by field. */
  ghost predicate SoundByField(s: Snapshot)
    requires s.Typed()
  {
    && (forall r | r in s.nodes :: r.NodeRow? && !Blank(r.id) && !Blank(r.name))
    && (forall r | r in s.routes :: r.RouteRow? &&
          !Blank(r.id) && !Blank(r.name) && !Blank(r.targetHost) && Has(s.nodes, r.nodeId))
    && (forall r | r in s.aclRules :: r.AclRow? &&
          !Blank(r.id) && !Blank(r.action) && (r.routeId.Some? ==> Has(s.routes, r.routeId.value)))
    && (forall r | r in s.domains :: r.DomainRow? &&
          !Blank(r.id) && !Blank(r.hostname)
          && (r.routeId.Some? ==> Has(s.routes, r.routeId.value))
          && (r.certificateId.Some? ==> Has(s.certificates, r.certificateId.value)))
    && (forall r | r in s.credentials :: r.CredentialRow? &&
          !Blank(r.id) && !Blank(r.nodeId) && !Blank(r.secretHash) && Has(s.nodes, r.nodeId))
  }

  /** The required fields of a row. */
  predicate FieldsFilled(r: Row) {
    match r
    case NodeRow(id, name, _) => !Blank(id) && !Blank(name)
    case CertificateRow(_, _) => true
    case RouteRow(id, name, _, targetHost, _) => !Blank(id) && !Blank(name) && !Blank(targetHost)
    case AclRow(id, action, _, _) => !Blank(id) && !Blank(action)
    case DomainRow(id, hostname, _, _, _) => !Blank(id) && !Blank(hostname)
    case CredentialRow(id, nodeId, secretHash, _) => !Blank(id) && !Blank(nodeId) && !Blank(secretHash)
  }

  /** The references of a row. */
  ghost predicate RefersByField(s: Snapshot, r: Row) {
    match r
    case NodeRow(_, _, _) => true
    case CertificateRow(_, _) => true
    case RouteRow(_, _, nodeId, _, _) => Has(s.nodes, nodeId)
    case AclRow(_, _, routeId, _) => routeId.Some? ==> Has(s.routes, routeId.value)
    case DomainRow(_, _, routeId, certificateId, _) =>
      && (routeId.Some? ==> Has(s.routes, routeId.value))
      && (certificateId.Some? ==> Has(s.certificates, certificateId.value))
    case CredentialRow(_, nodeId, _, _) => Has(s.nodes, nodeId)
  }

  /** One row, field by field. */
  ghost predicate RowByField(s: Snapshot, r: Row) {
    FieldsFilled(r) && RefersByField(s, r)
  }

  lemma RequiredExactly(r: Row)
    ensures (forall k | 0 <= k < |Required(r)| :: !Blank(Required(r)[k])) <==> FieldsFilled(r)
  {
    var required := Required(r);
    match r {
      case NodeRow(id, name, _) => assert required[0] == id && required[1] == name;
      case CertificateRow(_, _) =>
      case RouteRow(id, name, _, targetHost, _) =>
        assert required[0] == id && required[1] == name && required[2] == targetHost;
      case AclRow(id, action, _, _) => assert required[0] == id && required[1] == action;
      case DomainRow(id, hostname, _, _, _) => assert required[0] == id && required[1] == hostname;
      case CredentialRow(id, nodeId, secretHash, _) =>
        assert required[0] == id && required[1] == nodeId && required[2] == secretHash;
    }
  }

  lemma RefsExactly(s: Snapshot, r: Row)
    ensures (forall k | 0 <= k < |Refs(r)| :: RefersWithin(s, Refs(r)[k])) <==> RefersByField(s, r)
  {
    var refs := Refs(r);
    assert forall k | 0 <= k < |refs| :: RefersWithin(s, refs[k]) <==> Has(s.Of(refs[k].table), refs[k].id);
    match r {
      case NodeRow(_, _, _) =>
      case CertificateRow(_, _) =>
      case RouteRow(_, _, nodeId, _, _) => assert refs[0] == Ref(Nodes, nodeId);
      case AclRow(_, _, routeId, _) => assert routeId.Some? ==> refs[0] == Ref(Routes, routeId.value);
      case DomainRow(_, _, routeId, certificateId, _) =>
        assert routeId.Some? ==> refs[0] == Ref(Routes, routeId.value);
        assert certificateId.Some? ==> refs[|refs| - 1] == Ref(Certificates, certificateId.value);
      case CredentialRow(_, nodeId, _, _) => assert refs[0] == Ref(Nodes, nodeId);
    }
  }

  lemma RowExactly(s: Snapshot, r: Row)
    ensures RowSound(s, r) <==> RowByField(s, r)
  {
    RequiredExactly(r);
    RefsExactly(s, r);
  }

  lemma SoundExactly(s: Snapshot)
    requires s.Typed()
    ensures Sound(s) <==> SoundByField(s)
  {
    forall t, i | 0 <= i < |s.Of(t)| ensures RowSound(s, s.Of(t)[i]) <==> RowByField(s, s.Of(t)[i]) {
      RowExactly(s, s.Of(t)[i]);
    }
    if Sound(s) {
      forall t, r | r in s.Of(t) ensures TableFor(r) == t && RowByField(s, r) {
        var i :| 0 <= i < |s.Of(t)| && s.Of(t)[i] == r;
      }
      assert s.nodes == s.Of(Nodes) && s.routes == s.Of(Routes) && s.aclRules == s.Of(AclRules);
      assert s.domains == s.Of(Domains) && s.credentials == s.Of(Credentials);
    }
    if SoundByField(s) {
      forall t, i | 0 <= i < |s.Of(t)| ensures RowByField(s, s.Of(t)[i]) {
        assert TableFor(s.Of(t)[i]) == t && s.Of(t)[i] in s.Of(t);
      }
    }
  }

  method HasId(rows: seq<Row>, id: string) returns (found: bool)
    ensures found <==> exists i | 0 <= i < |rows| :: rows[i].id == id
  {
    for i := 0 to |rows|
      invariant forall j | 0 <= j < i :: rows[j].id != id
    {
      if rows[i].id == id {
        return true;
      }
    }
    found := false;
  }

  method CheckRow(s: Snapshot, r: Row) returns (ok: bool)
    ensures ok <==> RowSound(s, r)
  {
    var required, refs := Required(r), Refs(r);
    for k := 0 to |required|
      invariant forall j | 0 <= j < k :: !Blank(required[j])
    {
      if Blank(required[k]) {
        return false;
      }
    }
    for k := 0 to |refs|
      invariant forall j | 0 <= j < k :: RefersWithin(s, refs[j])
    {
      var found := HasId(s.Of(refs[k].table), refs[k].id);
      if !found {
        assert !RefersWithin(s, refs[k]);
        return false;
      }
    }
    ok := true;
  }

  method Validate(s: Snapshot) returns (ok: bool)
    ensures ok <==> Sound(s)
    ensures s.Typed() ==> (ok <==> SoundByField(s))
  {
    ok := ValidateAll(s);
    if s.Typed() {
      SoundExactly(s);
    }
  }

  method ValidateAll(s: Snapshot) returns (ok: bool)
    ensures ok <==> Sound(s)
  {
    for k := 0 to |Order|
      invariant forall j, i | 0 <= j < k && 0 <= i < |s.Of(Order[j])| :: RowSound(s, s.Of(Order[j])[i])
    {
      var rows := s.Of(Order[k]);
      for i := 0 to |rows|
        invariant forall j | 0 <= j < i :: RowSound(s, rows[j])
      {
        ok := CheckRow(s, rows[i]);
        if !ok {
          return;
        }
      }
    }
    forall t, i | 0 <= i < |s.Of(t)| ensures RowSound(s, s.Of(t)[i]) {
      var j := Place(t);
      assert Order[j] == t;
    }
    ok := true;
  }

  function Place(t: Table): (j: nat)
    ensures j < |Order| && Order[j] == t
  {
    match t
    case Nodes => 0
    case Certificates => 1
    case Routes => 2
    case AclRules => 3
    case Domains => 4
    case Credentials => 5
  }

  // ---------------------------------------------------------------- the database's constraints

  predicate Clashes(rows: Rows, r: Row) {
    exists id | id in rows :: Unique(rows[id]).Some? && Unique(rows[id]) == Unique(r)
  }

  predicate Resolves(db: Db, ref: Ref) {
    ref.id in db.Get(ref.table)
  }

  /** The foreign keys: all references but that to a certificate. */
  predicate Insertable(db: Db, r: Row) {
    && !Clashes(db.Get(TableFor(r)), r)
    && forall k | 0 <= k < |Refs(r)| :: Refs(r)[k].table.Certificates? || Resolves(db, Refs(r)[k])
  }

  /** What the database accepts, field by field: a free name, and targets for the foreign keys. */
  lemma InsertableExactly(db: Db, r: Row)
    ensures Insertable(db, r) <==>
      && (r.NodeRow? ==> forall id | id in db.nodes :: Unique(db.nodes[id]) != Some(r.name))
      && (r.RouteRow? ==> r.nodeId in db.nodes && forall id | id in db.routes :: Unique(db.routes[id]) != Some(r.name))
      && (r.AclRow? && r.routeId.Some? ==> r.routeId.value in db.routes)
      && (r.DomainRow? ==>
            && (r.routeId.Some? ==> r.routeId.value in db.routes)
            && forall id | id in db.domains :: Unique(db.domains[id]) != Some(r.hostname))
      && (r.CredentialRow? ==> r.nodeId in db.nodes)
  {
    var refs := Refs(r);
    match r {
      case NodeRow(_, _, _) =>
      case CertificateRow(_, _) =>
      case RouteRow(_, _, nodeId, _, _) => assert refs[0] == Ref(Nodes, nodeId);
      case AclRow(_, _, routeId, _) => assert routeId.Some? ==> refs[0] == Ref(Routes, routeId.value);
      case DomainRow(_, _, routeId, _, _) => assert routeId.Some? ==> refs[0] == Ref(Routes, routeId.value);
      case CredentialRow(_, nodeId, _, _) => assert refs[0] == Ref(Nodes, nodeId);
    }
  }

  /** No two rows of a table share their unique field. */
  ghost predicate Distinct(rows: Rows) {
    forall a, b | a in rows && b in rows && a != b :: Unique(rows[a]).None? || Unique(rows[a]) != Unique(rows[b])
  }

  ghost predicate Constrained(db: Db) {
    forall t :: Distinct(db.Get(t))
  }

  // ---------------------------------------------------------------- the restore

  datatype Loaded = Loaded(ok: bool, db: Db, inserted: nat, skipped: nat)

  /** The loop over the rows of one table. */
  function Load(db: Db, t: Table, rows: seq<Row>, apply: bool): Loaded {
    if rows == [] then Loaded(true, db, 0, 0)
    else
      var n := |rows| - 1;
      var before := Load(db, t, rows[..n], apply);
      if !before.ok then before
      else if rows[n].id in before.db.Get(t) then before.(skipped := before.skipped + 1)
      else if !apply then before.(inserted := before.inserted + 1)
      else if !Insertable(before.db, rows[n]) then before.(ok := false)
      else
        var table := before.db.Get(t)[rows[n].id := rows[n]];
        before.(db := before.db.Set(t, table), inserted := before.inserted + 1)
  }

  datatype Restored = Restored(ok: bool, db: Db, report: map<Table, (nat, nat)>)

  /** The first `k` tables, one after the other. */
  function LoadTables(db: Db, s: Snapshot, k: nat, apply: bool): Restored
    requires k <= |Order|
    decreases k, s
  {
    if k == 0 then Restored(true, db, map[])
    else
      var before := LoadTables(db, s, k - 1, apply);
      if !before.ok then before
      else
        var t := Order[k - 1];
        var l := Load(before.db, t, s.Of(t), apply);
        Restored(l.ok, l.db, before.report[t := (l.inserted, l.skipped)])
  }

  class Database {
    var db: Db

    constructor (db: Db)
      ensures this.db == db
    {
      this.db := db;
    }

    /** An insert the database may refuse. */
    method Insert(r: Row) returns (ok: bool)
      requires r.id !in db.Get(TableFor(r))
      modifies this
      ensures ok <==> Insertable(old(db), r)
      ensures db == if ok then old(db).Set(TableFor(r), old(db).Get(TableFor(r))[r.id := r]) else old(db)
    {
      ok := Insertable(db, r);
      if ok {
        db := db.Set(TableFor(r), db.Get(TableFor(r))[r.id := r]);
      }
    }

    method RestoreTable(t: Table, rows: seq<Row>, apply: bool) returns (ok: bool, inserted: nat, skipped: nat)
      requires forall i | 0 <= i < |rows| :: TableFor(rows[i]) == t
      modifies this
      ensures ok == Load(old(db), t, rows, apply).ok && db == Load(old(db), t, rows, apply).db
      ensures ok ==> Load(old(db), t, rows, apply) == Loaded(true, db, inserted, skipped)
    {
      inserted, skipped := 0, 0;
      for i := 0 to |rows|
        invariant Load(old(db), t, rows[..i], apply) == Loaded(true, db, inserted, skipped)
      {
        assert rows[..i + 1][..i] == rows[..i];
        if rows[i].id in db.Get(t) {
          skipped := skipped + 1;
        } else {
          if apply {
            ok := Insert(rows[i]);
            if !ok {
              LoadStops(old(db), t, rows, i + 1, apply);
              return;
            }
          }
          inserted := inserted + 1;
        }
      }
      assert rows[..|rows|] == rows;
      ok := true;
    }

    method Restore(s: Snapshot, apply: bool) returns (ok: bool, report: map<Table, (nat, nat)>)
      requires s.Typed()
      modifies this
      ensures !Sound(s) ==> !ok && db == old(db)
      ensures Sound(s) ==> var r := LoadTables(old(db), s, |Order|, apply); ok == r.ok && db == r.db
      ensures Sound(s) && ok ==> report == LoadTables(old(db), s, |Order|, apply).report
    {
      report := map[];
      ok := Validate(s);
      if ok {
        ok, report := RestoreAll(s, apply);
      }
    }

    /** The six tables, in their order. */
    method RestoreAll(s: Snapshot, apply: bool) returns (ok: bool, report: map<Table, (nat, nat)>)
      requires s.Typed()
      modifies this
      ensures var r := LoadTables(old(db), s, |Order|, apply);
        ok == r.ok && db == r.db && (ok ==> report == r.report)
    {
      report := map[];
      for k := 0 to |Order|
        invariant LoadTables(old(db), s, k, apply) == Restored(true, db, report)
      {
        var t := Order[k];
        var inserted, skipped;
        NextTable(old(db), s, k, apply);
        ok, inserted, skipped := RestoreTable(t, s.Of(t), apply);
        if !ok {
          LoadTablesStops(old(db), s, k + 1, apply);
          return;
        }
        report := report[t := (inserted, skipped)];
      }
      ok := true;
    }
  }

  lemma NextTable(db: Db, s: Snapshot, k: nat, apply: bool)
    requires k < |Order| && LoadTables(db, s, k, apply).ok
    ensures var t, before := Order[k], LoadTables(db, s, k, apply);
      var l := Load(before.db, t, s.Of(t), apply);
      LoadTables(db, s, k + 1, apply) == Restored(l.ok, l.db, before.report[t := (l.inserted, l.skipped)])
  {
  }

  lemma {:induction false} LoadStops(db: Db, t: Table, rows: seq<Row>, i: nat, apply: bool)
    requires i <= |rows| && !Load(db, t, rows[..i], apply).ok
    ensures !Load(db, t, rows, apply).ok && Load(db, t, rows, apply).db == Load(db, t, rows[..i], apply).db
    decreases |rows| - i
  {
    if i < |rows| {
      assert rows[..i + 1][..i] == rows[..i];
      LoadStops(db, t, rows, i + 1, apply);
    } else {
      assert rows[..i] == rows;
    }
  }

  lemma {:induction false} LoadTablesStops(db: Db, s: Snapshot, k: nat, apply: bool)
    requires k <= |Order| && !LoadTables(db, s, k, apply).ok
    ensures !LoadTables(db, s, |Order|, apply).ok
    ensures LoadTables(db, s, |Order|, apply).db == LoadTables(db, s, k, apply).db
    decreases |Order| - k
  {
    if k < |Order| {
      LoadTablesStops(db, s, k + 1, apply);
    }
  }

  // ---------------------------------------------------------------- one table

  /** A table with the snapshot's rows for the ids it lacks, the first of each. */
  function Merge(table: Rows, rows: seq<Row>): Rows {
    if rows == [] then table
    else
      var n := |rows| - 1;
      var m := Merge(table, rows[..n]);
      if rows[n].id in m then m else m[rows[n].id := rows[n]]
  }

  lemma {:induction false} MergeMeaning(table: Rows, rows: seq<Row>)
    ensures forall id | id in table :: id in Merge(table, rows) && Merge(table, rows)[id] == table[id]
    ensures forall i | 0 <= i < |rows| :: rows[i].id in Merge(table, rows)
    ensures forall id | id in Merge(table, rows) && id !in table ::
      exists i | 0 <= i < |rows| :: rows[i].id == id && Merge(table, rows)[id] == rows[i]
  {
    if rows != [] {
      var n := |rows| - 1;
      MergeMeaning(table, rows[..n]);
      assert forall i | 0 <= i < n :: rows[..n][i] == rows[i];
    }
  }

  /** Of rows with the same new id the first is the one merged. */
  lemma {:induction false} MergeFirst(table: Rows, rows: seq<Row>, id: string) returns (i: nat)
    requires id in Merge(table, rows) && id !in table
    ensures i < |rows| && rows[i].id == id && Merge(table, rows)[id] == rows[i]
    ensures forall j | 0 <= j < i :: rows[j].id != id
  {
    var n := |rows| - 1;
    if id in Merge(table, rows[..n]) {
      i := MergeFirst(table, rows[..n], id);
      assert forall j | 0 <= j < n :: rows[..n][j] == rows[j];
    } else {
      i := n;
      MergeMeaning(table, rows[..n]);
      assert forall j | 0 <= j < n :: rows[..n][j] == rows[j];
    }
  }

  /** A table that has all the ids stays as it is. */
  lemma {:induction false} MergeSame(table: Rows, rows: seq<Row>)
    requires forall i | 0 <= i < |rows| :: rows[i].id in table
    ensures Merge(table, rows) == table
  {
    if rows != [] {
      MergeSame(table, rows[..|rows| - 1]);
    }
  }

  /** The foreign keys of the rows have their targets, in other tables. */
  ghost predicate Anchored(db: Db, t: Table, rows: seq<Row>) {
    forall i | 0 <= i < |rows| ::
      && TableFor(rows[i]) == t
      && forall k | 0 <= k < |Refs(rows[i])| ::
           Refs(rows[i])[k].table != t && (Refs(rows[i])[k].table.Certificates? || Resolves(db, Refs(rows[i])[k]))
  }

  lemma DistinctOneMore(rows: Rows, r: Row)
    requires r.id !in rows
    ensures Distinct(rows[r.id := r]) <==> Distinct(rows) && !Clashes(rows, r)
  {
    var m := rows[r.id := r];
    if Distinct(m) {
      forall id | id in rows ensures Unique(rows[id]).None? || Unique(rows[id]) != Unique(r) {
        assert Unique(m[id]).None? || Unique(m[id]) != Unique(m[r.id]);
      }
      forall a, b | a in rows && b in rows && a != b
        ensures Unique(rows[a]).None? || Unique(rows[a]) != Unique(rows[b])
      {
        assert m[a] == rows[a] && m[b] == rows[b];
      }
    }
  }

  /** A row into a table of which the rest has not changed. */
  lemma InsertInto(db: Db, t: Table, m: Rows, r: Row)
    requires Anchored(db, t, [r])
    ensures Insertable(db.Set(t, m), r) <==> !Clashes(m, r)
    ensures forall m' :: db.Set(t, m).Set(t, m') == db.Set(t, m')
  {
    assert TableFor([r][0]) == t;
    forall k | 0 <= k < |Refs(r)|
      ensures Refs(r)[k].table.Certificates? || Resolves(db.Set(t, m), Refs(r)[k])
    {
      assert Refs([r][0])[k].table != t;
    }
  }

  /** The result of loading a table: the merged table, if it has no clash, and the counts. */
  ghost predicate Merges(db: Db, t: Table, rows: seq<Row>, l: Loaded) {
    var m := Merge(db.Get(t), rows);
    && (l.ok <==> Distinct(m))
    && (l.ok ==> l.db == db.Set(t, m) && |m| == |db.Get(t)| + l.inserted && l.inserted + l.skipped == |rows|)
  }

  /** Loading a table merges it, and succeeds exactly when the merged table has no clash. */
  lemma {:induction false} LoadMerges(db: Db, t: Table, rows: seq<Row>)
    requires Anchored(db, t, rows) && Distinct(db.Get(t))
    ensures Merges(db, t, rows, Load(db, t, rows, true))
  {
    if rows == [] {
      assert db.Set(t, db.Get(t)) == db;
    } else {
      var n := |rows| - 1;
      var r, m := rows[n], Merge(db.Get(t), rows[..n]);
      LoadMerges(db, t, rows[..n]);
      InsertInto(db, t, m, r);
      if r.id !in m {
        DistinctOneMore(m, r);
      }
    }
  }

  // ---------------------------------------------------------------- all tables

  /** The database with the tables of `done` merged. */
  ghost predicate MergedFor(db: Db, s: Snapshot, k: nat, after: Db)
    requires k <= |Order|
  {
    forall j | 0 <= j < |Order| ::
      after.Get(Order[j]) == if j < k then Merge(db.Get(Order[j]), s.Of(Order[j])) else db.Get(Order[j])
  }

  lemma RefsBefore(r: Row, k: nat)
    requires k < |Refs(r)|
    ensures Place(Refs(r)[k].table) < Place(TableFor(r))
  {
  }

  /** When its turn comes, the foreign keys of every table have their targets. */
  lemma AnchoredInTurn(db: Db, s: Snapshot, k: nat, after: Db)
    requires s.Typed() && Sound(s) && k < |Order| && MergedFor(db, s, k, after)
    ensures Anchored(after, Order[k], s.Of(Order[k]))
  {
    var rows := s.Of(Order[k]);
    forall i, j | 0 <= i < |rows| && 0 <= j < |Refs(rows[i])|
      ensures Refs(rows[i])[j].table != Order[k] && Resolves(after, Refs(rows[i])[j])
    {
      RefsBefore(rows[i], j);
      assert RowSound(s, s.Of(Order[k])[i]);
      RefResolves(db, s, k, after, Refs(rows[i])[j]);
    }
  }

  /** A reference within the snapshot to a table that has been merged. */
  lemma RefResolves(db: Db, s: Snapshot, k: nat, after: Db, ref: Ref)
    requires k < |Order| && MergedFor(db, s, k, after) && RefersWithin(s, ref) && Place(ref.table) < k
    ensures Resolves(after, ref)
  {
    MergeMeaning(db.Get(ref.table), s.Of(ref.table));
    assert after.Get(Order[Place(ref.table)]) == Merge(db.Get(ref.table), s.Of(ref.table));
  }

  ghost predicate NoClashUpTo(db: Db, s: Snapshot, k: nat)
    requires k <= |Order|
  {
    forall j | 0 <= j < k :: Distinct(Merge(db.Get(Order[j]), s.Of(Order[j])))
  }

  /** What the report says of a table: the rows it gained, and all rows accounted for. */
  ghost predicate Accounted(db: Db, after: Db, s: Snapshot, t: Table, report: map<Table, (nat, nat)>) {
    && t in report && |after.Get(t)| == |db.Get(t)| + report[t].0
    && report[t].0 + report[t].1 == |s.Of(t)|
  }

  /** One more table. */
  lemma LoadNext(db: Db, s: Snapshot, k: nat, before: Db)
    requires s.Typed() && Sound(s) && Constrained(db) && k < |Order| && MergedFor(db, s, k, before)
    ensures var t := Order[k];
      var l := Load(before, t, s.Of(t), true);
      && (l.ok <==> Distinct(Merge(db.Get(t), s.Of(t))))
      && (l.ok ==> MergedFor(db, s, k + 1, l.db) && forall u | u != t :: l.db.Get(u) == before.Get(u))
      && (l.ok ==> |l.db.Get(t)| == |db.Get(t)| + l.inserted && l.inserted + l.skipped == |s.Of(t)|)
  {
    var t := Order[k];
    AnchoredInTurn(db, s, k, before);
    assert before.Get(t) == db.Get(t);
    LoadMerges(before, t, s.Of(t));
    assert forall j | 0 <= j < |Order| && j != k :: Order[j] != t;
  }

  ghost predicate TablesMerged(db: Db, s: Snapshot, k: nat, r: Restored)
    requires k <= |Order|
  {
    && (r.ok <==> NoClashUpTo(db, s, k))
    && (r.ok ==> MergedFor(db, s, k, r.db) && forall t | Place(t) < k :: Accounted(db, r.db, s, t, r.report))
  }

  lemma TablesMergedNext(db: Db, s: Snapshot, k: nat, before: Restored)
    requires s.Typed() && Sound(s) && Constrained(db) && k < |Order| && TablesMerged(db, s, k, before) && before.ok
    ensures var t := Order[k];
      var l := Load(before.db, t, s.Of(t), true);
      TablesMerged(db, s, k + 1, Restored(l.ok, l.db, before.report[t := (l.inserted, l.skipped)]))
  {
    var last := Order[k];
    LoadNext(db, s, k, before.db);
    var l := Load(before.db, last, s.Of(last), true);
    var report := before.report[last := (l.inserted, l.skipped)];
    if l.ok {
      forall t | Place(t) < k + 1 ensures Accounted(db, l.db, s, t, report) {
        assert t != last ==> Accounted(db, before.db, s, t, before.report);
      }
    }
  }

  lemma LoadTablesNext(db: Db, s: Snapshot, k: nat)
    requires s.Typed() && Sound(s) && Constrained(db) && k < |Order|
    requires TablesMerged(db, s, k, LoadTables(db, s, k, true))
    ensures TablesMerged(db, s, k + 1, LoadTables(db, s, k + 1, true))
  {
    var before := LoadTables(db, s, k, true);
    if before.ok {
      TablesMergedNext(db, s, k, before);
    }
  }

  lemma {:induction false} LoadTablesMerge(db: Db, s: Snapshot, k: nat)
    requires s.Typed() && Sound(s) && Constrained(db) && k <= |Order|
    ensures TablesMerged(db, s, k, LoadTables(db, s, k, true))
  {
    if k > 0 {
      LoadTablesMerge(db, s, k - 1);
      LoadTablesNext(db, s, k - 1);
    }
  }

  /** No unique field of the merged tables occurs twice. */
  ghost predicate NoClash(db: Db, s: Snapshot) {
    forall t :: Distinct(Merge(db.Get(t), s.Of(t)))
  }

  /**
   A restore of a sound snapshot succeeds exactly when no unique name clashes, whatever its
   references; then every table is the merge of what it was with the snapshot, and the report
   accounts for every row.
   */
  lemma RestoreMerges(db: Db, s: Snapshot)
    requires s.Typed() && Sound(s) && Constrained(db)
    ensures var r := LoadTables(db, s, |Order|, true);
      && (r.ok <==> NoClash(db, s))
      && (r.ok ==> forall t :: r.db.Get(t) == Merge(db.Get(t), s.Of(t)) && Accounted(db, r.db, s, t, r.report))
  {
    LoadTablesMerge(db, s, |Order|);
    var r := LoadTables(db, s, |Order|, true);
    forall t ensures Order[Place(t)] == t {
    }
    if r.ok {
      forall t ensures r.db.Get(t) == Merge(db.Get(t), s.Of(t)) && Accounted(db, r.db, s, t, r.report) {
        assert r.db.Get(Order[Place(t)]) == Merge(db.Get(t), s.Of(t));
      }
    }
    if NoClashUpTo(db, s, |Order|) {
      forall t ensures Distinct(Merge(db.Get(t), s.Of(t))) {
        assert Distinct(Merge(db.Get(Order[Place(t)]), s.Of(Order[Place(t)])));
      }
    }
  }

  // ---------------------------------------------------------------- names, field by field

  ghost predicate DbTyped(db: Db) {
    forall t, id | id in db.Get(t) :: TableFor(db.Get(t)[id]) == t
  }

  /** No two nodes and no two routes have the same name, no two domains the same host name. */
  ghost predicate NamesDiffer(db: Db)
    requires DbTyped(db)
  {
    && (forall a, b | a in db.nodes && b in db.nodes && a != b :: NodeName(db.nodes[a]) != NodeName(db.nodes[b]))
    && (forall a, b | a in db.routes && b in db.routes && a != b :: RouteName(db.routes[a]) != RouteName(db.routes[b]))
    && (forall a, b | a in db.domains && b in db.domains && a != b ::
          DomainHost(db.domains[a]) != DomainHost(db.domains[b]))
  }

  function NodeName(r: Row): string {
    if r.NodeRow? then r.name else ""
  }

  function RouteName(r: Row): string {
    if r.RouteRow? then r.name else ""
  }

  function DomainHost(r: Row): string {
    if r.DomainRow? then r.hostname else ""
  }

  lemma DistinctNodes(rows: Rows)
    requires forall id | id in rows :: rows[id].NodeRow?
    ensures Distinct(rows) <==>
      forall a, b | a in rows && b in rows && a != b :: NodeName(rows[a]) != NodeName(rows[b])
  {
  }

  lemma DistinctRoutes(rows: Rows)
    requires forall id | id in rows :: rows[id].RouteRow?
    ensures Distinct(rows) <==>
      forall a, b | a in rows && b in rows && a != b :: RouteName(rows[a]) != RouteName(rows[b])
  {
  }

  lemma DistinctDomains(rows: Rows)
    requires forall id | id in rows :: rows[id].DomainRow?
    ensures Distinct(rows) <==>
      forall a, b | a in rows && b in rows && a != b :: DomainHost(rows[a]) != DomainHost(rows[b])
  {
  }

  lemma DistinctOthers(rows: Rows)
    requires forall id | id in rows :: rows[id].CertificateRow? || rows[id].AclRow? || rows[id].CredentialRow?
    ensures Distinct(rows)
  {
  }

  /** The rows of a table, by kind. */
  lemma TableKinds(db: Db, t: Table, id: string)
    requires DbTyped(db) && id in db.Get(t)
    ensures var r := db.Get(t)[id];
      match t
      case Nodes => r.NodeRow?
      case Certificates => r.CertificateRow?
      case Routes => r.RouteRow?
      case AclRules => r.AclRow?
      case Domains => r.DomainRow?
      case Credentials => r.CredentialRow?
  {
    assert TableFor(db.Get(t)[id]) == t;
  }

  lemma ConstrainedExactly(db: Db)
    requires DbTyped(db)
    ensures Constrained(db) <==> NamesDiffer(db)
  {
    forall t, id | id in db.Get(t) ensures TableFor(db.Get(t)[id]) == t {
      TableKinds(db, t, id);
    }
    ForNodes(db);
    ForRoutes(db);
    ForDomains(db);
    ForOthers(db);
    assert Constrained(db) ==> Distinct(db.Get(Nodes)) && Distinct(db.Get(Routes)) && Distinct(db.Get(Domains));
    if Distinct(db.nodes) && Distinct(db.routes) && Distinct(db.domains) {
      forall t ensures Distinct(db.Get(t)) {
        assert t.Nodes? || t.Certificates? || t.Routes? || t.AclRules? || t.Domains? || t.Credentials?;
      }
    }
  }

  lemma ForNodes(db: Db)
    requires DbTyped(db)
    ensures Distinct(db.nodes) <==>
      forall a, b | a in db.nodes && b in db.nodes && a != b :: NodeName(db.nodes[a]) != NodeName(db.nodes[b])
  {
    forall id | id in db.nodes ensures db.nodes[id].NodeRow? {
      TableKinds(db, Nodes, id);
    }
    DistinctNodes(db.nodes);
  }

  lemma ForRoutes(db: Db)
    requires DbTyped(db)
    ensures Distinct(db.routes) <==>
      forall a, b | a in db.routes && b in db.routes && a != b :: RouteName(db.routes[a]) != RouteName(db.routes[b])
  {
    forall id | id in db.routes ensures db.routes[id].RouteRow? {
      TableKinds(db, Routes, id);
    }
    DistinctRoutes(db.routes);
  }

  lemma ForDomains(db: Db)
    requires DbTyped(db)
    ensures Distinct(db.domains) <==>
      forall a, b | a in db.domains && b in db.domains && a != b ::
        DomainHost(db.domains[a]) != DomainHost(db.domains[b])
  {
    forall id | id in db.domains ensures db.domains[id].DomainRow? {
      TableKinds(db, Domains, id);
    }
    DistinctDomains(db.domains);
  }

  lemma ForOthers(db: Db)
    requires DbTyped(db)
    ensures Distinct(db.certificates) && Distinct(db.aclRules) && Distinct(db.credentials)
  {
    forall id | id in db.certificates ensures db.certificates[id].CertificateRow? {
      TableKinds(db, Certificates, id);
    }
    forall id | id in db.aclRules ensures db.aclRules[id].AclRow? {
      TableKinds(db, AclRules, id);
    }
    forall id | id in db.credentials ensures db.credentials[id].CredentialRow? {
      TableKinds(db, Credentials, id);
    }
    DistinctOthers(db.certificates);
    DistinctOthers(db.aclRules);
    DistinctOthers(db.credentials);
  }

  /** The database with every table merged. */
  function MergeAll(db: Db, s: Snapshot): Db {
    Db(Merge(db.nodes, s.nodes), Merge(db.certificates, s.certificates), Merge(db.routes, s.routes),
       Merge(db.aclRules, s.aclRules), Merge(db.domains, s.domains), Merge(db.credentials, s.credentials))
  }

  lemma MergeAllIs(db: Db, s: Snapshot)
    ensures forall t :: MergeAll(db, s).Get(t) == Merge(db.Get(t), s.Of(t))
  {
  }

  lemma MergeAllTyped(db: Db, s: Snapshot)
    requires DbTyped(db) && s.Typed()
    ensures DbTyped(MergeAll(db, s))
  {
    MergeAllIs(db, s);
    forall t, id | id in MergeAll(db, s).Get(t) ensures TableFor(MergeAll(db, s).Get(t)[id]) == t {
      MergeMeaning(db.Get(t), s.Of(t));
      if id !in db.Get(t) {
        var i := MergeFirst(db.Get(t), s.Of(t), id);
        assert TableFor(s.Of(t)[i]) == t;
      }
    }
  }

  /**
   The restore in terms of fields: of a snapshot whose fields are sound into a database without
   equal names it succeeds exactly if the merged database has no equal names, and that is it then.
   */
  lemma RestoreExactly(db: Db, s: Snapshot)
    requires s.Typed() && SoundByField(s) && DbTyped(db) && NamesDiffer(db)
    ensures DbTyped(MergeAll(db, s))
    ensures var r := LoadTables(db, s, |Order|, true);
      && (r.ok <==> NamesDiffer(MergeAll(db, s))) && (r.ok ==> r.db == MergeAll(db, s))
  {
    SoundExactly(s);
    ConstrainedExactly(db);
    MergeAllTyped(db, s);
    ConstrainedExactly(MergeAll(db, s));
    MergeAllIs(db, s);
    RestoreMerges(db, s);
    var r := LoadTables(db, s, |Order|, true);
    assert NoClash(db, s) <==> Constrained(MergeAll(db, s));
    if r.ok {
      forall t ensures r.db.Get(t) == MergeAll(db, s).Get(t) {
      }
      SameTables(r.db, MergeAll(db, s));
    }
  }

  lemma SameTables(a: Db, b: Db)
    requires forall t :: a.Get(t) == b.Get(t)
    ensures a == b
  {
    assert a.Get(Nodes) == b.Get(Nodes) && a.Get(Certificates) == b.Get(Certificates);
    assert a.Get(Routes) == b.Get(Routes) && a.Get(AclRules) == b.Get(AclRules);
    assert a.Get(Domains) == b.Get(Domains) && a.Get(Credentials) == b.Get(Credentials);
  }

  /** Afterwards no row that was there has changed, and every reference of the snapshot resolves. */
  lemma RestoreKeepsAndResolves(db: Db, s: Snapshot)
    requires s.Typed() && Sound(s) && Constrained(db) && LoadTables(db, s, |Order|, true).ok
    ensures var after := LoadTables(db, s, |Order|, true).db;
      && (forall t, id | id in db.Get(t) :: id in after.Get(t) && after.Get(t)[id] == db.Get(t)[id])
      && (forall t, i | 0 <= i < |s.Of(t)| ::
            && s.Of(t)[i].id in after.Get(t)
            && forall k | 0 <= k < |Refs(s.Of(t)[i])| :: Resolves(after, Refs(s.Of(t)[i])[k]))
      && Constrained(after)
  {
    RestoreMerges(db, s);
    var after := LoadTables(db, s, |Order|, true).db;
    forall t ensures after.Get(t) == Merge(db.Get(t), s.Of(t)) {
    }
    forall t, id | id in db.Get(t) ensures id in after.Get(t) && after.Get(t)[id] == db.Get(t)[id] {
      MergeMeaning(db.Get(t), s.Of(t));
    }
    forall t, i | 0 <= i < |s.Of(t)| ensures s.Of(t)[i].id in after.Get(t) {
      MergeMeaning(db.Get(t), s.Of(t));
    }
    forall t, i, k | 0 <= i < |s.Of(t)| && 0 <= k < |Refs(s.Of(t)[i])|
      ensures Resolves(after, Refs(s.Of(t)[i])[k])
    {
      var ref := Refs(s.Of(t)[i])[k];
      assert RowSound(s, s.Of(t)[i]);
      assert RefersWithin(s, ref);
      MergeMeaning(db.Get(ref.table), s.Of(ref.table));
    }
  }

  /** A second restore succeeds, inserts nothing and changes nothing. */
  lemma RestoreTwice(db: Db, s: Snapshot)
    requires s.Typed() && Sound(s) && Constrained(db) && LoadTables(db, s, |Order|, true).ok
    ensures var after := LoadTables(db, s, |Order|, true).db;
      var again := LoadTables(after, s, |Order|, true);
      && again.ok && (forall t :: again.db.Get(t) == after.Get(t))
      && forall t :: t in again.report && again.report[t].0 == 0
  {
    RestoreMerges(db, s);
    RestoreKeepsAndResolves(db, s);
    var after := LoadTables(db, s, |Order|, true).db;
    forall t ensures Merge(after.Get(t), s.Of(t)) == after.Get(t) && Distinct(after.Get(t)) {
      MergeSame(after.Get(t), s.Of(t));
    }
    RestoreMerges(after, s);
    var again := LoadTables(after, s, |Order|, true);
    forall t ensures t in again.report && again.report[t].0 == 0 {
      assert Accounted(after, again.db, s, t, again.report);
    }
  }

  // ---------------------------------------------------------------- a failed restore

  /** No row has changed, and the rows added are among those given. */
  ghost predicate OnlyAdds(before: Rows, after: Rows, rows: seq<Row>) {
    && (forall id | id in before :: id in after && after[id] == before[id])
    && (forall id | id in after && id !in before :: after[id] in rows)
  }

  /** The database differs from `db` in one table, which has only been added to. */
  ghost predicate AddedTo(db: Db, after: Db, t: Table, rows: seq<Row>) {
    OnlyAdds(db.Get(t), after.Get(t), rows) && forall u | u != t :: after.Get(u) == db.Get(u)
  }

  lemma AddedMore(db: Db, before: Db, t: Table, rows: seq<Row>, r: Row)
    requires AddedTo(db, before, t, rows)
    ensures AddedTo(db, before, t, rows + [r])
    ensures r.id !in before.Get(t) ==> AddedTo(db, before.Set(t, before.Get(t)[r.id := r]), t, rows + [r])
  {
    assert forall x | x in rows :: x in rows + [r];
    assert r in rows + [r];
  }

  lemma {:induction false} LoadOnlyAdds(db: Db, t: Table, rows: seq<Row>, apply: bool)
    ensures AddedTo(db, Load(db, t, rows, apply).db, t, rows)
    ensures !apply ==> Load(db, t, rows, apply).db == db
  {
    if rows != [] {
      var n := |rows| - 1;
      LoadOnlyAdds(db, t, rows[..n], apply);
      AddedMore(db, Load(db, t, rows[..n], apply).db, t, rows[..n], rows[n]);
      assert rows == rows[..n] + [rows[n]];
    }
  }

  /** Even a restore that fails half way has changed no row, and added only rows of the snapshot. */
  lemma {:induction false} RestoreOnlyAdds(db: Db, s: Snapshot, k: nat, apply: bool)
    requires k <= |Order|
    ensures var after := LoadTables(db, s, k, apply).db;
      && (forall t :: OnlyAdds(db.Get(t), after.Get(t), s.Of(t)))
      && (forall t | Place(t) >= k :: after.Get(t) == db.Get(t))
      && (!apply ==> after == db)
  {
    if k > 0 {
      RestoreOnlyAdds(db, s, k - 1, apply);
      var before, after := LoadTables(db, s, k - 1, apply), LoadTables(db, s, k, apply);
      if before.ok {
        NextOnlyAdds(db, before.db, s, k - 1, apply);
        assert after.db == Load(before.db, Order[k - 1], s.Of(Order[k - 1]), apply).db;
      }
    }
  }

  lemma NextOnlyAdds(db: Db, before: Db, s: Snapshot, k: nat, apply: bool)
    requires k < |Order|
    requires forall t :: OnlyAdds(db.Get(t), before.Get(t), s.Of(t))
    requires forall t | Place(t) >= k :: before.Get(t) == db.Get(t)
    ensures var after := Load(before, Order[k], s.Of(Order[k]), apply).db;
      && (forall t :: OnlyAdds(db.Get(t), after.Get(t), s.Of(t)))
      && (forall t | Place(t) > k :: after.Get(t) == db.Get(t))
      && (!apply ==> after == before)
  {
    var last := Order[k];
    LoadOnlyAdds(before, last, s.Of(last), apply);
    assert Place(last) == k;
    var after := Load(before, last, s.Of(last), apply).db;
    forall t ensures OnlyAdds(db.Get(t), after.Get(t), s.Of(t)) {
      assert OnlyAdds(db.Get(t), before.Get(t), s.Of(t));
    }
  }

  // ---------------------------------------------------------------- the preview

  /** The new rows of one table have distinct ids. */
  ghost predicate NewIdsOnce(table: Rows, rows: seq<Row>) {
    forall i, j | 0 <= i < j < |rows| && rows[i].id !in table :: rows[i].id != rows[j].id
  }

  /** The rows whose ids the table lacks. */
  function NewRows(table: Rows, rows: seq<Row>): nat {
    if rows == [] then 0
    else
      var n := |rows| - 1;
      NewRows(table, rows[..n]) + if rows[n].id in table then 0 else 1
  }

  lemma {:induction false} LoadPreview(db: Db, t: Table, rows: seq<Row>)
    ensures NewRows(db.Get(t), rows) <= |rows|
    ensures Load(db, t, rows, false) ==
      Loaded(true, db, NewRows(db.Get(t), rows), |rows| - NewRows(db.Get(t), rows))
  {
    if rows != [] {
      LoadPreview(db, t, rows[..|rows| - 1]);
    }
  }

  lemma OnceMore(table: Rows, rows: seq<Row>)
    requires rows != []
    ensures var n := |rows| - 1;
      NewIdsOnce(table, rows) <==>
        NewIdsOnce(table, rows[..n]) && (rows[n].id in table || forall i | 0 <= i < n :: rows[i].id != rows[n].id)
  {
    var n := |rows| - 1;
    assert forall i | 0 <= i < n :: rows[..n][i] == rows[i];
    if NewIdsOnce(table, rows[..n]) && (rows[n].id in table || forall i | 0 <= i < n :: rows[i].id != rows[n].id) {
      forall i, j | 0 <= i < j < |rows| && rows[i].id !in table ensures rows[i].id != rows[j].id {
        assert j < n ==> rows[..n][i].id != rows[..n][j].id;
      }
    }
  }

  lemma {:induction false} NewRowsMerge(table: Rows, rows: seq<Row>)
    ensures |table| + NewRows(table, rows) >= |Merge(table, rows)|
    ensures |table| + NewRows(table, rows) == |Merge(table, rows)| <==> NewIdsOnce(table, rows)
  {
    if rows != [] {
      var n := |rows| - 1;
      NewRowsMerge(table, rows[..n]);
      MergeMeaning(table, rows[..n]);
      OnceMore(table, rows);
      assert forall i | 0 <= i < n :: rows[..n][i] == rows[i];
    }
  }

  /** What the preview reports of a table. */
  function PreviewOf(table: Rows, rows: seq<Row>): (int, int) {
    (NewRows(table, rows), |rows| - NewRows(table, rows))
  }

  ghost predicate Previewed(db: Db, s: Snapshot, k: nat, p: Restored) {
    && p.ok && p.db == db
    && forall t | Place(t) < k :: t in p.report && p.report[t] == PreviewOf(db.Get(t), s.Of(t))
  }

  lemma {:induction false} PreviewTables(db: Db, s: Snapshot, k: nat)
    requires k <= |Order|
    ensures Previewed(db, s, k, LoadTables(db, s, k, false))
  {
    if k > 0 {
      PreviewTables(db, s, k - 1);
      PreviewNext(db, s, k - 1, LoadTables(db, s, k - 1, false));
    }
  }

  lemma PreviewNext(db: Db, s: Snapshot, k: nat, before: Restored)
    requires k < |Order| && Previewed(db, s, k, before)
    ensures var t := Order[k];
      var l := Load(before.db, t, s.Of(t), false);
      Previewed(db, s, k + 1, Restored(l.ok, l.db, before.report[t := (l.inserted, l.skipped)]))
  {
    var last := Order[k];
    LoadPreview(db, last, s.Of(last));
    assert forall t | Place(t) == k :: t == last;
  }

  /**
   The preview never fails and never changes anything. Its report is that of the restore exactly
   when no table of the snapshot has the same new id twice; otherwise it promises too many rows.
   */
  lemma PreviewAgrees(db: Db, s: Snapshot)
    requires s.Typed() && Sound(s) && Constrained(db) && LoadTables(db, s, |Order|, true).ok
    ensures var p, r := LoadTables(db, s, |Order|, false), LoadTables(db, s, |Order|, true);
      && p.ok && p.db == db
      && forall t ::
        && t in p.report && t in r.report && p.report[t].0 >= r.report[t].0
        && (p.report[t] == r.report[t] <==> NewIdsOnce(db.Get(t), s.Of(t)))
  {
    PreviewTables(db, s, |Order|);
    RestoreMerges(db, s);
    var p, r := LoadTables(db, s, |Order|, false), LoadTables(db, s, |Order|, true);
    forall t
      ensures t in p.report && t in r.report && p.report[t].0 >= r.report[t].0
      ensures p.report[t] == r.report[t] <==> NewIdsOnce(db.Get(t), s.Of(t))
    {
      assert Accounted(db, r.db, s, t, r.report);
      ReportsAgree(db.Get(t), s.Of(t), p.report[t], r.report[t]);
    }
  }

  lemma ReportsAgree(table: Rows, rows: seq<Row>, p: (nat, nat), r: (nat, nat))
    requires |Merge(table, rows)| == |table| + r.0 && r.0 + r.1 == |rows|
    requires p.0 == NewRows(table, rows) && p.0 + p.1 == |rows|
    ensures p.0 >= r.0 && (p == r <==> NewIdsOnce(table, rows))
  {
    NewRowsMerge(table, rows);
  }
}
