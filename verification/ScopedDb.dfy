/** The tenant-scoped table wrapper, over tables of rows whose tenant is one of their columns. */
module ScopedDb {
  import opened Wrappers

  /** Column values by column name; the tenant column is kept apart, as `tenantId`. */
  datatype Row = Row(tenantId: string, columns: map<string, int>)

  /** What a caller passes in: it may name a tenant of its own choosing. */
  datatype Data = Data(tenantId: Option<string>, columns: map<string, int>)

  /** Tables by name, rows in storage order. */
  type Db = map<string, seq<Row>>

  /** `EmptyStatement` is the query builder's refusal of an insert of no rows or an update of no columns. */
  datatype Outcome = Rows(rows: seq<Row>) | EmptyStatement

  datatype Op =
    | Select(table: string)
    | Insert(table: string, data: seq<Data>)
    | Update(table: string, patch: Data)
    | Delete(table: string)

  function Table(db: Db, table: string): seq<Row> {
    if table in db then db[table] else []
  }

  // ----- the wrapper -----

  /** `{ ...row, tenantId }`: the scope's tenant replaces whatever the caller named. */
  function Inject(tenant: string, data: Data): Row {
    Row(tenant, data.columns)
  }

  function InjectAll(tenant: string, data: seq<Data>): seq<Row> {
    if data == [] then [] else [Inject(tenant, data[0])] + InjectAll(tenant, data[1..])
  }

  /** `where tenant_id = tenant`. */
  function Owned(rows: seq<Row>, tenant: string): seq<Row> {
    if rows == [] then []
    else (if rows[0].tenantId == tenant then [rows[0]] else []) + Owned(rows[1..], tenant)
  }

  function NotOwned(rows: seq<Row>, tenant: string): seq<Row> {
    if rows == [] then []
    else (if rows[0].tenantId == tenant then [] else [rows[0]]) + NotOwned(rows[1..], tenant)
  }

  /** `set safe where tenant_id = tenant`, the tenant column having been taken out of the patch. */
  function Patched(rows: seq<Row>, tenant: string, patch: map<string, int>): seq<Row> {
    if rows == [] then []
    else [PatchRow(rows[0], tenant, patch)] + Patched(rows[1..], tenant, patch)
  }

  function PatchRow(row: Row, tenant: string, patch: map<string, int>): (r: Row)
    ensures r.tenantId == row.tenantId && (row.tenantId != tenant ==> r == row)
  {
    if row.tenantId == tenant then Row(row.tenantId, row.columns + patch) else row
  }

  function Perform(db: Db, tenant: string, op: Op): (Db, Outcome) {
    match op
    case Select(table) => (db, Rows(Owned(Table(db, table), tenant)))
    case Insert(table, data) =>
      if data == [] then (db, EmptyStatement)
      else
        var injected := InjectAll(tenant, data);
        (db[table := Table(db, table) + injected], Rows(injected))
    case Update(table, patch) =>
      if patch.columns == map[] then (db, EmptyStatement)
      else (db[table := Patched(Table(db, table), tenant, patch.columns)], Rows([]))
    case Delete(table) => (db[table := NotOwned(Table(db, table), tenant)], Rows([]))
  }

  // ----- one operation -----

  lemma OwnedHead(row: Row, rest: seq<Row>, tenant: string)
    ensures Owned([row] + rest, tenant) == if row.tenantId == tenant then [row] + Owned(rest, tenant) else Owned(rest, tenant)
    ensures NotOwned([row] + rest, tenant) == if row.tenantId == tenant then NotOwned(rest, tenant) else [row] + NotOwned(rest, tenant)
  {
  }

  lemma Assoc(a: seq<Row>, b: seq<Row>, c: seq<Row>)
    ensures a + (b + c) == a + b + c && [] + c == c
  {
  }

  lemma {:induction false} OwnedSplits(a: seq<Row>, b: seq<Row>, tenant: string)
    ensures Owned(a + b, tenant) == Owned(a, tenant) + Owned(b, tenant)
  {
    if a == [] {
      assert a + b == b;
      Assoc([], [], Owned(b, tenant));
    } else {
      assert a == [a[0]] + a[1..];
      hide Owned;
      Assoc([a[0]], a[1..], b);
      OwnedHead(a[0], a[1..], tenant);
      OwnedHead(a[0], a[1..] + b, tenant);
      OwnedSplits(a[1..], b, tenant);
      Assoc([a[0]], Owned(a[1..], tenant), Owned(b, tenant));
    }
  }

  lemma {:induction false} NotOwnedSplits(a: seq<Row>, b: seq<Row>, tenant: string)
    ensures NotOwned(a + b, tenant) == NotOwned(a, tenant) + NotOwned(b, tenant)
  {
    if a == [] {
      assert a + b == b;
      Assoc([], [], NotOwned(b, tenant));
    } else {
      assert a == [a[0]] + a[1..];
      hide NotOwned;
      Assoc([a[0]], a[1..], b);
      OwnedHead(a[0], a[1..], tenant);
      OwnedHead(a[0], a[1..] + b, tenant);
      NotOwnedSplits(a[1..], b, tenant);
      Assoc([a[0]], NotOwned(a[1..], tenant), NotOwned(b, tenant));
    }
  }

  lemma {:induction false} InjectedRowsAreOwned(tenant: string, data: seq<Data>, other: string)
    ensures Owned(InjectAll(tenant, data), other) == if other == tenant then InjectAll(tenant, data) else []
    ensures |InjectAll(tenant, data)| == |data|
  {
    if data != [] {
      InjectedRowsAreOwned(tenant, data[1..], other);
      assert InjectAll(tenant, data)[1..] == InjectAll(tenant, data[1..]);
    }
  }

  /** An update reaches the owner's rows only, and keeps every row's tenant and place. */
  lemma {:induction false} PatchReachesOwnRows(rows: seq<Row>, tenant: string, patch: map<string, int>, other: string)
    ensures Owned(Patched(rows, tenant, patch), other)
         == if other == tenant then Patched(Owned(rows, tenant), tenant, patch) else Owned(rows, other)
    ensures |Patched(rows, tenant, patch)| == |rows|
    ensures forall i :: 0 <= i < |rows| ==> Patched(rows, tenant, patch)[i].tenantId == rows[i].tenantId
  {
    hide PatchRow;
    if rows != [] {
      PatchReachesOwnRows(rows[1..], tenant, patch, other);
      var rest := Patched(rows[1..], tenant, patch);
      OwnedHead(PatchRow(rows[0], tenant, patch), rest, other);
      assert rows == [rows[0]] + rows[1..];
      OwnedHead(rows[0], rows[1..], other);
      hide Owned;
      PatchedHead(rows[0], Owned(rows[1..], tenant), tenant, patch);
    }
  }

  lemma PatchedHead(row: Row, rest: seq<Row>, tenant: string, patch: map<string, int>)
    ensures Patched([row] + rest, tenant, patch) == [PatchRow(row, tenant, patch)] + Patched(rest, tenant, patch)
  {
    assert ([row] + rest)[1..] == rest;
  }

  lemma {:induction false} DeleteReachesOwnRows(rows: seq<Row>, tenant: string, other: string)
    ensures Owned(NotOwned(rows, tenant), other) == if other == tenant then [] else Owned(rows, other)
  {
    if rows != [] {
      DeleteReachesOwnRows(rows[1..], tenant, other);
      OwnedHead(rows[0], NotOwned(rows[1..], tenant), other);
      assert [] + NotOwned(rows[1..], tenant) == NotOwned(rows[1..], tenant);
    }
  }

  /** Two databases look the same to a tenant. */
  ghost predicate SameFor(a: Db, b: Db, tenant: string) {
    forall table :: Owned(Table(a, table), tenant) == Owned(Table(b, table), tenant)
  }

  /** An operation leaves every other tenant's rows as they were. */
  lemma OthersSeeNothing(db: Db, tenant: string, op: Op, other: string)
    requires other != tenant
    ensures SameFor(db, Perform(db, tenant, op).0, other)
  {
    var after := Perform(db, tenant, op).0;
    forall table ensures Owned(Table(db, table), other) == Owned(Table(after, table), other) {
      if !op.Select? && table == op.table {
        var rows := Table(db, table);
        match op
        case Insert(_, data) =>
          OwnedSplits(rows, InjectAll(tenant, data), other);
          InjectedRowsAreOwned(tenant, data, other);
        case Update(_, patch) => PatchReachesOwnRows(rows, tenant, patch.columns, other);
        case Delete(_) => DeleteReachesOwnRows(rows, tenant, other);
      }
    }
  }

  /** What an operation does to and shows its own tenant depends on that tenant's rows only. */
  lemma OwnViewDecides(a: Db, b: Db, tenant: string, op: Op)
    requires SameFor(a, b, tenant)
    ensures SameFor(Perform(a, tenant, op).0, Perform(b, tenant, op).0, tenant)
    ensures Perform(a, tenant, op).1 == Perform(b, tenant, op).1
  {
    var x, y := Perform(a, tenant, op).0, Perform(b, tenant, op).0;
    forall table ensures Owned(Table(x, table), tenant) == Owned(Table(y, table), tenant) {
      assert Owned(Table(a, table), tenant) == Owned(Table(b, table), tenant);
      if !op.Select? && table == op.table {
        match op
        case Insert(_, data) =>
          OwnedSplits(Table(a, table), InjectAll(tenant, data), tenant);
          OwnedSplits(Table(b, table), InjectAll(tenant, data), tenant);
        case Update(_, patch) =>
          PatchReachesOwnRows(Table(a, table), tenant, patch.columns, tenant);
          PatchReachesOwnRows(Table(b, table), tenant, patch.columns, tenant);
        case Delete(_) =>
          DeleteReachesOwnRows(Table(a, table), tenant, tenant);
          DeleteReachesOwnRows(Table(b, table), tenant, tenant);
      }
    }
    assert Owned(Table(a, op.table), tenant) == Owned(Table(b, op.table), tenant);
  }

  // ----- any interleaving of any number of tenants -----

  datatype Call = Call(tenant: string, op: Op)

  function RunAll(db: Db, calls: seq<Call>): Db
    decreases calls
  {
    if calls == [] then db
    else RunAll(Perform(db, calls[0].tenant, calls[0].op).0, calls[1..])
  }

  /** The results that one tenant's calls return, in order. */
  function ResultsFor(db: Db, calls: seq<Call>, tenant: string): seq<Outcome>
    decreases calls
  {
    if calls == [] then []
    else
      var step := Perform(db, calls[0].tenant, calls[0].op);
      (if calls[0].tenant == tenant then [step.1] else []) + ResultsFor(step.0, calls[1..], tenant)
  }

  function CallsOf(calls: seq<Call>, tenant: string): seq<Call> {
    if calls == [] then []
    else (if calls[0].tenant == tenant then [calls[0]] else []) + CallsOf(calls[1..], tenant)
  }

  /**
   * Noninterference: every result a tenant sees, and every row it owns in the end, is what it would
   * be if only its own calls had run, from any database that looked the same to it.
   */
  lemma {:induction false} Noninterference(db: Db, alone: Db, calls: seq<Call>, tenant: string)
    requires SameFor(db, alone, tenant)
    ensures ResultsFor(db, calls, tenant) == ResultsFor(alone, CallsOf(calls, tenant), tenant)
    ensures SameFor(RunAll(db, calls), RunAll(alone, CallsOf(calls, tenant)), tenant)
    decreases calls
  {
    if calls != [] {
      var call := calls[0];
      var next := Perform(db, call.tenant, call.op).0;
      if call.tenant == tenant {
        OwnViewDecides(db, alone, tenant, call.op);
        Noninterference(next, Perform(alone, tenant, call.op).0, calls[1..], tenant);
        assert CallsOf(calls, tenant)[1..] == CallsOf(calls[1..], tenant);
      } else {
        OthersSeeNothing(db, call.tenant, call.op, tenant);
        Noninterference(next, alone, calls[1..], tenant);
        assert CallsOf(calls, tenant) == CallsOf(calls[1..], tenant);
      }
    }
  }

  /** Every row a tenant ever gets back is its own, whatever tenant the callers named in their data. */
  lemma {:induction false} OnlyOwnRowsAreShown(db: Db, calls: seq<Call>, tenant: string, i: nat)
    requires i < |ResultsFor(db, calls, tenant)|
    ensures ResultsFor(db, calls, tenant)[i].Rows? ==>
              forall row :: row in ResultsFor(db, calls, tenant)[i].rows ==> row.tenantId == tenant
    decreases calls
  {
    var step := Perform(db, calls[0].tenant, calls[0].op);
    var own := calls[0].tenant == tenant;
    if own && i == 0 {
      OwnedRowsAreOwned(Table(db, calls[0].op.table), tenant);
      if calls[0].op.Insert? {
        OwnedRowsAreOwned(InjectAll(tenant, calls[0].op.data), tenant);
        InjectedRowsAreOwned(tenant, calls[0].op.data, tenant);
      }
    } else {
      var j := if own then i - 1 else i;
      OnlyOwnRowsAreShown(step.0, calls[1..], tenant, j);
      assert ResultsFor(db, calls, tenant)[i] == ResultsFor(step.0, calls[1..], tenant)[j];
    }
  }

  lemma {:induction false} OwnedRowsAreOwned(rows: seq<Row>, tenant: string)
    ensures forall row :: row in Owned(rows, tenant) ==> row.tenantId == tenant
  {
    if rows != [] {
      OwnedRowsAreOwned(rows[1..], tenant);
    }
  }

  // ----- what each operation does, row by row -----

  /** All tables but one are as they were. */
  ghost predicate OthersKept(db: Db, after: Db, table: string) {
    forall other :: other != table ==> Table(after, other) == Table(db, other)
  }

  /** The row holds the patch's value in every patched column, and what it held in every other. */
  ghost predicate Overwritten(before: Row, after: Row, patch: map<string, int>) {
    && after.tenantId == before.tenantId
    && (forall c :: c in after.columns <==> c in before.columns || c in patch)
    && (forall c :: c in after.columns ==> after.columns[c] == if c in patch then patch[c] else before.columns[c])
  }

  lemma {:induction false} PatchedRows(rows: seq<Row>, tenant: string, patch: map<string, int>)
    ensures |Patched(rows, tenant, patch)| == |rows|
    ensures forall i :: 0 <= i < |rows| ==>
              if rows[i].tenantId == tenant then Overwritten(rows[i], Patched(rows, tenant, patch)[i], patch)
              else Patched(rows, tenant, patch)[i] == rows[i]
  {
    if rows != [] {
      PatchedRows(rows[1..], tenant, patch);
      assert Patched(rows, tenant, patch)[1..] == Patched(rows[1..], tenant, patch);
    }
  }

  /** An update overwrites the patched columns of the tenant's rows, in place, whatever tenant it names, and nothing else. */
  lemma UpdateOverwrites(db: Db, tenant: string, table: string, patch: Data)
    ensures var (after, outcome) := Perform(db, tenant, Update(table, patch));
            var rows, changed := Table(db, table), Table(after, table);
            if patch.columns == map[] then after == db && outcome == EmptyStatement
            else
              && outcome == Rows([]) && OthersKept(db, after, table) && |changed| == |rows|
              && forall i :: 0 <= i < |rows| ==>
                   if rows[i].tenantId == tenant then Overwritten(rows[i], changed[i], patch.columns)
                   else changed[i] == rows[i]
  {
    PatchedRows(Table(db, table), tenant, patch.columns);
  }

  lemma {:induction false} InjectedRows(tenant: string, data: seq<Data>)
    ensures |InjectAll(tenant, data)| == |data|
    ensures forall i :: 0 <= i < |data| ==> InjectAll(tenant, data)[i] == Row(tenant, data[i].columns)
  {
    if data != [] {
      InjectedRows(tenant, data[1..]);
    }
  }

  /** An insert appends one row for each given, with its columns and the scope's tenant, and returns these rows. */
  lemma InsertAppends(db: Db, tenant: string, table: string, data: seq<Data>)
    ensures var (after, outcome) := Perform(db, tenant, Insert(table, data));
            if data == [] then after == db && outcome == EmptyStatement
            else
              && outcome.Rows? && |outcome.rows| == |data| && OthersKept(db, after, table)
              && (forall i :: 0 <= i < |data| ==>
                    outcome.rows[i].tenantId == tenant && outcome.rows[i].columns == data[i].columns)
              && Table(after, table) == Table(db, table) + outcome.rows
  {
    InjectedRows(tenant, data);
  }

  /** The rows at these places, in order: exactly those that belong to the tenant, or exactly the others. */
  ghost predicate Picks(rows: seq<Row>, picked: seq<Row>, places: seq<nat>, tenant: string, own: bool) {
    && |places| == |picked|
    && (forall i :: 0 <= i < |picked| ==> places[i] < |rows| && picked[i] == rows[places[i]])
    && (forall i, j :: 0 <= i < j < |places| ==> places[i] < places[j])
    && (forall k: nat :: k in places <==> k < |rows| && (rows[k].tenantId == tenant) == own)
  }

  lemma PickLast(rows: seq<Row>, last: Row, picked: seq<Row>, places: seq<nat>, tenant: string, own: bool)
    requires Picks(rows, picked, places, tenant, own)
    ensures var more := (last.tenantId == tenant) == own;
            Picks(rows + [last], picked + (if more then [last] else []), places + (if more then [|rows|] else []), tenant, own)
  {
    var all := rows + [last];
    if (last.tenantId == tenant) == own {
      var next, at := picked + [last], places + [|rows|];
      assert forall i :: 0 <= i < |places| ==> at[i] == places[i] && places[i] in places;
      forall k: nat ensures k in at <==> k < |all| && (all[k].tenantId == tenant) == own {
        assert k in at <==> k in places || k == |rows|;
      }
    } else {
      assert picked + [] == picked && places + [] == places;
    }
  }

  lemma {:induction false} OwnedPlaces(rows: seq<Row>, tenant: string) returns (own: seq<nat>, others: seq<nat>)
    ensures Picks(rows, Owned(rows, tenant), own, tenant, true)
    ensures Picks(rows, NotOwned(rows, tenant), others, tenant, false)
  {
    hide Picks;
    if rows == [] {
      own, others := [], [];
      NothingPicked(tenant);
    } else {
      var front, last := rows[..|rows| - 1], rows[|rows| - 1];
      own, others := OwnedPlaces(front, tenant);
      PickLast(front, last, Owned(front, tenant), own, tenant, true);
      PickLast(front, last, NotOwned(front, tenant), others, tenant, false);
      assert rows == front + [last];
      OwnedSplits(front, [last], tenant);
      NotOwnedSplits(front, [last], tenant);
      OneOwned(last, tenant);
      hide Owned, NotOwned;
      own := own + if last.tenantId == tenant then [|front|] else [];
      others := others + if last.tenantId == tenant then [] else [|front|];
    }
  }

  lemma OneOwned(row: Row, tenant: string)
    ensures Owned([row], tenant) == (if row.tenantId == tenant then [row] else [])
    ensures NotOwned([row], tenant) == (if row.tenantId == tenant then [] else [row])
  {
  }

  lemma NothingPicked(tenant: string)
    ensures Picks([], [], [], tenant, true) && Picks([], [], [], tenant, false)
  {
  }

  /** A select shows the tenant's rows, all of them and in order, and changes nothing; a delete leaves exactly the others. */
  lemma SelectAndDeletePick(db: Db, tenant: string, table: string) returns (own: seq<nat>, others: seq<nat>)
    ensures var (after, outcome) := Perform(db, tenant, Select(table));
            after == db && outcome.Rows? && Picks(Table(db, table), outcome.rows, own, tenant, true)
    ensures var (after, outcome) := Perform(db, tenant, Delete(table));
            && outcome == Rows([]) && OthersKept(db, after, table)
            && Picks(Table(db, table), Table(after, table), others, tenant, false)
  {
    own, others := OwnedPlaces(Table(db, table), tenant);
  }
}
