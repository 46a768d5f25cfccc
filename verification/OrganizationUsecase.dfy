/** `Create` and `Update` of `internal/core/usecase/organization/organization_usecase.go` as steps on
    the organizations table of all tenants, and what every serial run of them keeps. */
module OrganizationUsecase {
  import opened Shared
  import opened Hierarchy
  import opened Text

  /** Types and statuses are free text; only an active organization can be given children. */
  const ACTIVE := "active"
  const COMPANY := "company"

  /** Free-form settings, as the text of each entry. */
  type Settings = map<string, string>

  /** A row of `organizations`; a NULL legal name is the empty string. */
  datatype Row = Row(
    tenant: Id, parent: Option<Id>, code: string, name: string, legalName: string,
    kind: string, status: string, settings: Settings)

  type Table = map<Id, Row>

  datatype UsecaseError =
    | InvalidInput | AlreadyExists | NotFound | ParentInactive | CircularReference | StorageFailed

  datatype CreateCommand = CreateCommand(
    tenant: Id, parent: Option<Id>, code: string, name: string, legalName: string,
    kind: string, settings: Option<Settings>)

  /** Empty texts and missing settings leave the stored values alone. */
  datatype UpdateCommand = UpdateCommand(
    tenant: Id, id: Id, parent: Option<Id>, name: string, legalName: string,
    kind: string, status: string, settings: Option<Settings>)

  /** The parent graph that one tenant sees. */
  function TenantParents(t: Table, tenant: Id): ParentMap {
    map id | id in t && t[id].tenant == tenant :: t[id].parent
  }

  /** What the foreign key on `parent_id` guarantees. */
  ghost predicate ParentsExist(t: Table) {
    forall id :: id in t && t[id].parent.Some? ==> t[id].parent.value in t && t[id].parent.value != NIL_ID
  }

  ghost predicate Sound(t: Table) {
    ParentsExist(t) && forall tenant :: Acyclic(TenantParents(t, tenant))
  }

  /** Nil and the nil ID are both stored as NULL. */
  function StoredRef(p: Option<Id>): Option<Id> {
    if IsRootRef(p) then None else p
  }

  /** `COALESCE($1, parent_id)`: a NULL argument leaves the stored parent alone. */
  function Coalesce(p: Option<Id>, stored: Option<Id>): Option<Id> {
    if IsRootRef(p) then stored else p
  }

  /** The row that `Create` inserts: texts trimmed, the code in lower case, a company by default. */
  function NewRow(cmd: CreateCommand): Row {
    Row(cmd.tenant, StoredRef(cmd.parent), ToLower(TrimSpace(cmd.code)), TrimSpace(cmd.name),
        TrimSpace(cmd.legalName), if cmd.kind == "" then COMPANY else cmd.kind, ACTIVE,
        if cmd.settings.None? then map[] else cmd.settings.value)
  }

  /** The row that `Update` writes. A blank legal name is passed as NULL, which COALESCE ignores. */
  function ChangedRow(cmd: UpdateCommand, row: Row): Row {
    row.(parent := Coalesce(cmd.parent, row.parent),
         name := if cmd.name != "" then TrimSpace(cmd.name) else row.name,
         legalName := if TrimSpace(cmd.legalName) != "" then TrimSpace(cmd.legalName) else row.legalName,
         kind := if cmd.kind != "" then cmd.kind else row.kind,
         status := if cmd.status != "" then cmd.status else row.status,
         settings := if cmd.settings.Some? then cmd.settings.value else row.settings)
  }

  predicate CodeTaken(t: Table, tenant: Id, code: string) {
    exists x :: x in t && t[x].tenant == tenant && t[x].code == code
  }

  /** A new row under an existing organization of the same tenant. */
  ghost predicate Created(t: Table, cmd: CreateCommand, id: Id, t': Table) {
    && id !in t && t' == t[id := NewRow(cmd)]
    && NewRow(cmd).code != "" && NewRow(cmd).name != ""
    && !CodeTaken(t, cmd.tenant, NewRow(cmd).code)
    && (!IsRootRef(cmd.parent) ==>
          cmd.parent.value in t && t[cmd.parent.value].tenant == cmd.tenant && t[cmd.parent.value].status == ACTIVE)
  }

  /** One row rewritten; its parent changes only to a reference that keeps its chain finite. */
  ghost predicate Updated(t: Table, cmd: UpdateCommand, t': Table) {
    && cmd.id in t && t[cmd.id].tenant == cmd.tenant
    && var row := ChangedRow(cmd, t[cmd.id]);
       && t' == t[cmd.id := row]
       && (row.parent != t[cmd.id].parent ==>
             row.parent.value in t && Finite(TenantParents(t, cmd.tenant)[cmd.id := row.parent], cmd.id))
  }

  /** An identifier that nobody names as parent is nobody's ancestor. */
  lemma {:induction false} NeverMentions(pm: ParentMap, id: Id, x: Id, n: nat)
    requires x != id && forall y :: y in pm ==> pm[y] != Some(id)
    ensures Up(pm, x, n) != Some(id)
    decreases n
  {
    if n > 0 && Parent(pm, x).Some? { NeverMentions(pm, id, Parent(pm, x).value, n - 1); }
  }

  /** A new leaf closes no cycle. */
  lemma NewLeafAcyclic(pm: ParentMap, id: Id, parent: Option<Id>)
    requires Acyclic(pm) && parent != Some(id) && parent != Some(NIL_ID) && forall y :: y in pm ==> pm[y] != Some(id)
    ensures Acyclic(pm[id := parent])
  {
    var pm' := pm[id := parent];
    if parent.Some? {
      AcyclicIsFinite(pm, parent.value);
      var n: nat :| Up(pm, parent.value, n).None?;
      forall i: nat ensures Up(pm, parent.value, i) != Some(id) { NeverMentions(pm, id, parent.value, i); }
      SameChain(pm, pm', id, parent.value, n);
      assert Up(pm', id, n + 1).None?;
    } else {
      assert Up(pm', id, 1).None?;
    }
    ReparentAcyclic(pm, id, parent);
  }

  /** The parent graph of the whole table. */
  function AllParents(t: Table): ParentMap {
    map id | id in t :: t[id].parent
  }

  /** Writing one row changes one entry of the parent graph, in one tenant's view. */
  lemma WrittenParents(t: Table, id: Id, row: Row, tenant: Id)
    requires id in t ==> t[id].tenant == row.tenant
    ensures AllParents(t[id := row]) == AllParents(t)[id := row.parent]
    ensures TenantParents(t[id := row], tenant) ==
            if tenant == row.tenant then TenantParents(t, tenant)[id := row.parent] else TenantParents(t, tenant)
  {
  }

  lemma WrittenParentsExist(t: Table, id: Id, row: Row)
    requires ParentsExist(t) && (row.parent.Some? ==> row.parent.value in t && row.parent.value != NIL_ID)
    ensures ParentsExist(t[id := row])
  {
  }

  lemma CreatedParents(t: Table, cmd: CreateCommand, id: Id, t': Table, tenant: Id)
    requires Created(t, cmd, id, t')
    ensures AllParents(t') == AllParents(t)[id := StoredRef(cmd.parent)]
    ensures TenantParents(t', tenant) ==
            if tenant == cmd.tenant then TenantParents(t, tenant)[id := StoredRef(cmd.parent)]
            else TenantParents(t, tenant)
    ensures ParentsExist(t) ==> ParentsExist(t')
  {
    hide TrimSpace, ToLower, CodeTaken, ParentsExist, TenantParents, AllParents;
    WrittenParents(t, id, NewRow(cmd), tenant);
    if ParentsExist(t) { WrittenParentsExist(t, id, NewRow(cmd)); }
  }

  lemma UpdatedParents(t: Table, cmd: UpdateCommand, t': Table, tenant: Id)
    requires Updated(t, cmd, t')
    ensures AllParents(t') == AllParents(t)[cmd.id := Coalesce(cmd.parent, t[cmd.id].parent)]
    ensures TenantParents(t', tenant) ==
            if tenant == cmd.tenant then TenantParents(t, tenant)[cmd.id := Coalesce(cmd.parent, t[cmd.id].parent)]
            else TenantParents(t, tenant)
    ensures ParentsExist(t) ==> ParentsExist(t')
  {
    hide TrimSpace, Finite, TenantParents, AllParents;
    WrittenParents(t, cmd.id, ChangedRow(cmd, t[cmd.id]), tenant);
    if ParentsExist(t) { WrittenParentsExist(t, cmd.id, ChangedRow(cmd, t[cmd.id])); }
  }

  lemma CreateKeepsSound(t: Table, cmd: CreateCommand, id: Id, t': Table)
    requires Sound(t) && Created(t, cmd, id, t')
    ensures Sound(t')
  {
    forall tenant ensures ParentsExist(t') && Acyclic(TenantParents(t', tenant)) {
      CreatedParents(t, cmd, id, t', tenant);
      assert Acyclic(TenantParents(t, tenant));
      hide Acyclic, Created;
      NewLeafAcyclic(TenantParents(t, tenant), id, StoredRef(cmd.parent));
    }
  }

  lemma UpdateKeepsSound(t: Table, cmd: UpdateCommand, t': Table)
    requires Sound(t) && Updated(t, cmd, t')
    ensures Sound(t')
  {
    forall tenant ensures ParentsExist(t') && Acyclic(TenantParents(t', tenant)) {
      UpdatedParents(t, cmd, t', tenant);
      var pm, parent := TenantParents(t, tenant), Coalesce(cmd.parent, t[cmd.id].parent);
      assert Acyclic(pm);
      hide Acyclic, Finite, TrimSpace;
      if tenant == cmd.tenant && parent != t[cmd.id].parent {
        ReparentAcyclic(pm, cmd.id, parent);
      } else {
        assert TenantParents(t', tenant) == pm;
      }
    }
  }

  // ---- The usecase ----

  /** `o` is a row of the tenant. */
  predicate IsRowOf(t: Table, tenant: Id, o: Organization) {
    o.id in t && t[o.id].tenant == tenant && o.parent == t[o.id].parent && o.name == t[o.id].name
  }

  /** `orgs` lists the rows of the tenant, each once. */
  ghost predicate ListsRows(t: Table, tenant: Id, orgs: seq<Organization>) {
    UniqueIds(orgs) && forall o :: o in orgs <==> IsRowOf(t, tenant, o)
  }

  /** The rows of one tenant as a list, in any order. */
  method ListByTenant(t: Table, tenant: Id) returns (orgs: seq<Organization>)
    ensures ParentMapOf(orgs) == TenantParents(t, tenant) && ListsRows(t, tenant, orgs)
  {
    orgs := [];
    var rest := t.Keys;
    while rest != {}
      invariant rest <= t.Keys
      invariant forall x :: x in ParentMapOf(orgs) <==> x in t && x !in rest && t[x].tenant == tenant
      invariant forall x :: x in ParentMapOf(orgs) ==> ParentMapOf(orgs)[x] == t[x].parent
      invariant UniqueIds(orgs) && forall o :: o in orgs <==> IsRowOf(t, tenant, o) && o.id !in rest
    {
      var id :| id in rest;
      rest := rest - {id};
      if t[id].tenant == tenant {
        var org := Organization(id, t[id].parent, t[id].name);
        assert (orgs + [org])[..|orgs|] == orgs;
        orgs := orgs + [org];
      }
    }
    assert ParentMapOf(orgs) == TenantParents(t, tenant);
  }

  /** Which reads and writes of a call fail. */
  datatype CreateFaults = CreateFaults(codeReadOk: bool, parentReadOk: bool, insertOk: bool)

  datatype UpdateFaults = UpdateFaults(readOk: bool, listOk: bool, writeOk: bool)

  /** The assignments of the update and the COALESCE of its statement; `parent` is the new parent or
      the stored one. */
  method Merge(cmd: UpdateCommand, org: Row, parent: Option<Id>) returns (row: Row)
    requires parent == if cmd.parent.Some? then cmd.parent else org.parent
    ensures row == ChangedRow(cmd, org)
    ensures row.tenant == org.tenant && row.code == org.code
    ensures row.parent == if cmd.parent == None || cmd.parent == Some(NIL_ID) then org.parent else cmd.parent
    ensures row.name == if cmd.name != "" then TrimSpace(cmd.name) else org.name
    ensures row.legalName == if TrimSpace(cmd.legalName) != "" then TrimSpace(cmd.legalName) else org.legalName
    ensures (cmd.status != "" ==> row.status == cmd.status) && (cmd.status == "" ==> row.status == org.status)
    ensures (cmd.kind != "" ==> row.kind == cmd.kind) && (cmd.kind == "" ==> row.kind == org.kind)
    ensures cmd.settings.Some? ==> row.settings == cmd.settings.value
    ensures cmd.settings.None? ==> row.settings == org.settings
  {
    hide TrimSpace;
    var name := if cmd.name != "" then TrimSpace(cmd.name) else org.name;
    var legalName := if cmd.legalName != "" then TrimSpace(cmd.legalName) else org.legalName;
    row := org.(parent := Coalesce(parent, org.parent), name := name,
                legalName := if legalName != "" then legalName else org.legalName,
                kind := if cmd.kind != "" then cmd.kind else org.kind,
                status := if cmd.status != "" then cmd.status else org.status,
                settings := if cmd.settings.Some? then cmd.settings.value else org.settings);
    BlankStaysBlank();
  }

  class Usecase {
    var table: Table

    constructor ()
      ensures table == map[]
    {
      table := map[];
    }

    /** `newId` is what `shared.NewID` produced. */
    method Create(cmd: CreateCommand, newId: Id, f: CreateFaults) returns (err: Option<UsecaseError>)
      requires newId !in table && newId != NIL_ID
      modifies this
      ensures err.None? ==> Created(old(table), cmd, newId, table)
      ensures err.Some? ==> table == old(table)
      ensures err.None? <==>
              && f.codeReadOk && (IsRootRef(cmd.parent) || f.parentReadOk) && f.insertOk
              && exists t' :: Created(old(table), cmd, newId, t')
      ensures err.None? ==>
              && newId in table && table[newId].tenant == cmd.tenant && table[newId].status == "active"
              && table[newId].parent == (if cmd.parent == Some(NIL_ID) then None else cmd.parent)
              && table[newId].kind == (if cmd.kind == "" then "company" else cmd.kind)
              && table[newId].code == ToLower(TrimSpace(cmd.code)) && table[newId].name == TrimSpace(cmd.name)
      ensures err == Some(InvalidInput) <==> NewRow(cmd).code == "" || NewRow(cmd).name == ""
      ensures err == Some(AlreadyExists) <==>
              && NewRow(cmd).code != "" && NewRow(cmd).name != "" && f.codeReadOk
              && exists x :: x in old(table) && old(table)[x].tenant == cmd.tenant
                             && old(table)[x].code == NewRow(cmd).code
      ensures err == Some(NotFound) <==>
              && NewRow(cmd).code != "" && NewRow(cmd).name != "" && f.codeReadOk
              && !CodeTaken(old(table), cmd.tenant, NewRow(cmd).code) && !IsRootRef(cmd.parent) && f.parentReadOk
              && (cmd.parent.value !in old(table) || old(table)[cmd.parent.value].tenant != cmd.tenant)
      ensures err == Some(ParentInactive) <==>
              && NewRow(cmd).code != "" && NewRow(cmd).name != "" && f.codeReadOk
              && !CodeTaken(old(table), cmd.tenant, NewRow(cmd).code) && !IsRootRef(cmd.parent) && f.parentReadOk
              && cmd.parent.value in old(table) && old(table)[cmd.parent.value].tenant == cmd.tenant
              && old(table)[cmd.parent.value].status != "active"
      ensures err == Some(StorageFailed) ==> !f.codeReadOk || !f.parentReadOk || !f.insertOk
      ensures old(Sound(table)) ==> Sound(table)
    {
      hide TrimSpace, ToLower;
      var code, name := ToLower(TrimSpace(cmd.code)), TrimSpace(cmd.name);
      if code == "" || name == "" { return Some(InvalidInput); }
      var kind := if cmd.kind == "" then COMPANY else cmd.kind;
      if !f.codeReadOk { return Some(StorageFailed); }
      if CodeTaken(table, cmd.tenant, code) { return Some(AlreadyExists); }
      if !IsRootRef(cmd.parent) {
        var p := cmd.parent.value;
        if !f.parentReadOk { return Some(StorageFailed); }
        if p !in table || table[p].tenant != cmd.tenant { return Some(NotFound); }
        if table[p].status != ACTIVE { return Some(ParentInactive); }
      }
      var settings := if cmd.settings.None? then map[] else cmd.settings.value;
      var row := Row(cmd.tenant, StoredRef(cmd.parent), code, name, TrimSpace(cmd.legalName), kind, ACTIVE, settings);
      assert Created(table, cmd, newId, table[newId := row]);
      if !f.insertOk { return Some(StorageFailed); }
      if Sound(table) { CreateKeepsSound(table, cmd, newId, table[newId := row]); }
      table := table[newId := row];
      return None;
    }

    /** `f.writeOk` is false when the update fails for a reason other than the foreign key. */
    method Update(cmd: UpdateCommand, f: UpdateFaults) returns (err: Option<UsecaseError>)
      requires ParentsExist(table)
      modifies this
      ensures err.None? ==> Updated(old(table), cmd, table)
      ensures err.Some? ==> table == old(table)
      ensures err.None? <==>
              && f.readOk && f.writeOk && (exists t' :: Updated(old(table), cmd, t'))
              && (f.listOk || cmd.parent.None? || cmd.parent == old(table)[cmd.id].parent)
      ensures err.None? ==>
              && cmd.id in old(table) && cmd.id in table && table[cmd.id].code == old(table)[cmd.id].code
              && table[cmd.id].parent ==
                 (if cmd.parent == None || cmd.parent == Some(NIL_ID) then old(table)[cmd.id].parent else cmd.parent)
              && (cmd.name != "" ==> table[cmd.id].name == TrimSpace(cmd.name))
              && (cmd.kind != "" ==> table[cmd.id].kind == cmd.kind)
              && (cmd.status != "" ==> table[cmd.id].status == cmd.status)
              && (cmd.settings.Some? ==> table[cmd.id].settings == cmd.settings.value)
      ensures err == Some(NotFound) <==>
              f.readOk && (cmd.id !in old(table) || old(table)[cmd.id].tenant != cmd.tenant)
      ensures err == Some(CircularReference) <==>
              && f.readOk && f.listOk && cmd.id in old(table) && old(table)[cmd.id].tenant == cmd.tenant
              && cmd.parent.Some? && cmd.parent != old(table)[cmd.id].parent
              && !Finite(TenantParents(old(table), cmd.tenant)[cmd.id := cmd.parent], cmd.id)
      ensures err == Some(StorageFailed) ==>
              !f.readOk || !f.listOk || !f.writeOk || (cmd.parent.Some? && cmd.parent.value !in old(table))
      ensures old(Sound(table)) ==> Sound(table)
    {
      hide Sound;
      if !f.readOk { return Some(StorageFailed); }
      if cmd.id !in table || table[cmd.id].tenant != cmd.tenant { return Some(NotFound); }
      var org := table[cmd.id];
      var parent := org.parent;
      if cmd.parent.Some? && (parent.None? || cmd.parent.value != parent.value) {
        if !f.listOk { return Some(StorageFailed); }
        var all := ListByTenant(table, cmd.tenant);
        var cycle := CheckCircularReference(all, cmd.id, cmd.parent);
        if cycle.Some? { return Some(CircularReference); }
        parent := cmd.parent;
      }
      hide ChangedRow;
      var row := Merge(cmd, org, parent);
      if row.parent.Some? && row.parent.value !in table { return Some(StorageFailed); }
      assert Updated(table, cmd, table[cmd.id := row]);
      if !f.writeOk { return Some(StorageFailed); }
      if Sound(table) { UpdateKeepsSound(table, cmd, table[cmd.id := row]); }
      table := table[cmd.id := row];
      return None;
    }
  }

  lemma BlankStaysBlank()
    ensures TrimSpace("") == ""
  {
  }

  // ---- Runs ----

  datatype Step = CreateStep(create: CreateCommand, id: Id) | UpdateStep(update: UpdateCommand)

  ghost predicate Takes(t: Table, s: Step, t': Table) {
    match s
    case CreateStep(cmd, id) => Created(t, cmd, id, t') && id != NIL_ID
    case UpdateStep(cmd) => Updated(t, cmd, t')
  }

  /** A serial run of successful calls, starting from an empty table. */
  ghost predicate IsRun(tables: seq<Table>, steps: seq<Step>) {
    && |tables| == |steps| + 1 && tables[0] == map[]
    && forall i :: 0 <= i < |steps| ==> Takes(tables[i], steps[i], tables[i + 1])
  }

  lemma EmptyAcyclic()
    ensures Acyclic(map[])
  {
    forall x, n: nat | n >= 1 ensures Up(map[], x, n) != Some(x) {}
  }

  lemma StartsSound()
    ensures Sound(map[])
  {
    forall tenant ensures Acyclic(TenantParents(map[], tenant)) {
      EmptyAcyclic();
      assert TenantParents(map[], tenant) == map[];
    }
  }

  lemma StepKeepsSound(t: Table, s: Step, t': Table)
    requires Takes(t, s, t') && Sound(t)
    ensures Sound(t')
  {
    hide Sound, Created, Updated;
    match s
    case CreateStep(cmd, id) => CreateKeepsSound(t, cmd, id, t');
    case UpdateStep(cmd) => UpdateKeepsSound(t, cmd, t');
  }

  /** Every tenant's hierarchy stays acyclic throughout every serial run. */
  lemma {:induction false} RunsStayAcyclic(tables: seq<Table>, steps: seq<Step>, i: nat)
    requires IsRun(tables, steps) && i < |tables|
    ensures Sound(tables[i])
    decreases i
  {
    hide Sound, Takes;
    if i == 0 {
      StartsSound();
    } else {
      RunsStayAcyclic(tables, steps, i - 1);
      StepKeepsSound(tables[i - 1], steps[i - 1], tables[i]);
    }
  }

  /** Codes identify organizations within a tenant. */
  ghost predicate CodesDistinct(t: Table) {
    forall a, b :: a in t && b in t && t[a].tenant == t[b].tenant && t[a].code == t[b].code ==> a == b
  }

  lemma StepKeepsCodes(t: Table, s: Step, t': Table)
    requires Takes(t, s, t') && CodesDistinct(t)
    ensures CodesDistinct(t')
  {
    hide Finite, TrimSpace, ToLower;
  }

  /** Throughout every serial run no two organizations of a tenant share a code. */
  lemma {:induction false} RunsKeepCodesDistinct(tables: seq<Table>, steps: seq<Step>, i: nat)
    requires IsRun(tables, steps) && i < |tables|
    ensures CodesDistinct(tables[i])
    decreases i
  {
    hide Takes;
    if i > 0 {
      hide CodesDistinct;
      RunsKeepCodesDistinct(tables, steps, i - 1);
      StepKeepsCodes(tables[i - 1], steps[i - 1], tables[i]);
    }
  }

  /** An organization that has a parent can never be made a root again. */
  lemma ParentsAreNeverCleared(t: Table, s: Step, t': Table, id: Id)
    requires Takes(t, s, t') && id in t && t[id].parent.Some?
    ensures id in t' && t'[id].parent.Some?
  {
  }

  // ---- Across tenants ----

  /** The cycle check of `CheckCircularReference`, made on the rows of all tenants. */
  ghost predicate PassesOnWholeTable(t: Table, cmd: UpdateCommand)
    requires cmd.id in t
  {
    Finite(AllParents(t)[cmd.id := Coalesce(cmd.parent, t[cmd.id].parent)], cmd.id)
  }

  /** An accepted update keeps the whole table acyclic exactly when the same check on the rows of all
      tenants would have accepted it too. */
  lemma UpdateGloballyAcyclicIff(t: Table, cmd: UpdateCommand, t': Table)
    requires Updated(t, cmd, t') && Acyclic(AllParents(t))
    ensures Acyclic(AllParents(t')) <==> PassesOnWholeTable(t, cmd)
  {
    UpdatedParents(t, cmd, t', cmd.tenant);
    hide Acyclic, Finite, Updated;
    ReparentAcyclic(AllParents(t), cmd.id, Coalesce(cmd.parent, t[cmd.id].parent));
  }

  lemma CreateGloballyAcyclic(t: Table, cmd: CreateCommand, id: Id, t': Table)
    requires Created(t, cmd, id, t') && ParentsExist(t) && Acyclic(AllParents(t))
    ensures Acyclic(AllParents(t'))
  {
    CreatedParents(t, cmd, id, t', cmd.tenant);
    hide Acyclic, Created;
    NewLeafAcyclic(AllParents(t), id, StoredRef(cmd.parent));
  }

  ghost predicate StepPasses(t: Table, s: Step) {
    s.UpdateStep? ==> s.update.id in t && PassesOnWholeTable(t, s.update)
  }

  lemma StepGloballyAcyclicIff(t: Table, s: Step, t': Table)
    requires Takes(t, s, t') && ParentsExist(t) && Acyclic(AllParents(t))
    ensures Acyclic(AllParents(t')) <==> StepPasses(t, s)
  {
    match s
    case CreateStep(cmd, id) => CreateGloballyAcyclic(t, cmd, id, t');
    case UpdateStep(cmd) => UpdateGloballyAcyclicIff(t, cmd, t');
  }

  /** The exact condition over runs: the whole table is acyclic throughout a serial run if and only if
      every update in it passes the check on the rows of all tenants. */
  lemma RunsGloballyAcyclicIff(tables: seq<Table>, steps: seq<Step>)
    requires IsRun(tables, steps)
    ensures (forall i :: 0 <= i < |tables| ==> Acyclic(AllParents(tables[i]))) <==>
            (forall i :: 0 <= i < |steps| ==> StepPasses(tables[i], steps[i]))
  {
    hide Takes, StepPasses, Acyclic;
    if forall i :: 0 <= i < |tables| ==> Acyclic(AllParents(tables[i])) {
      forall i | 0 <= i < |steps| ensures StepPasses(tables[i], steps[i]) {
        RunParentsExist(tables, steps, i);
        StepGloballyAcyclicIff(tables[i], steps[i], tables[i + 1]);
      }
    }
    if forall i :: 0 <= i < |steps| ==> StepPasses(tables[i], steps[i]) {
      forall i | 0 <= i < |tables| ensures Acyclic(AllParents(tables[i])) { PassingRun(tables, steps, i); }
    }
  }

  lemma RunParentsExist(tables: seq<Table>, steps: seq<Step>, i: nat)
    requires IsRun(tables, steps) && i < |tables|
    ensures ParentsExist(tables[i])
  {
    hide Takes;
    RunsStayAcyclic(tables, steps, i);
  }

  lemma {:induction false} PassingRun(tables: seq<Table>, steps: seq<Step>, i: nat)
    requires IsRun(tables, steps) && i < |tables|
    requires forall k :: 0 <= k < i ==> StepPasses(tables[k], steps[k])
    ensures Acyclic(AllParents(tables[i]))
    decreases i
  {
    hide Takes, StepPasses, Acyclic;
    if i == 0 {
      EmptyAcyclic();
      assert AllParents(map[]) == map[];
    } else {
      PassingRun(tables, steps, i - 1);
      RunParentsExist(tables, steps, i - 1);
      StepGloballyAcyclicIff(tables[i - 1], steps[i - 1], tables[i]);
    }
  }

  ghost predicate ParentsStayInTenant(t: Table) {
    forall id :: id in t && t[id].parent.Some? ==>
      t[id].parent.value in t && t[t[id].parent.value].tenant == t[id].tenant
  }

  /** The new parent, if there is one, belongs to the caller's tenant. */
  predicate NamesOwnParent(t: Table, s: Step) {
    s.UpdateStep? && !IsRootRef(s.update.parent) ==>
      s.update.parent.value in t && t[s.update.parent.value].tenant == s.update.tenant
  }

  lemma StepStaysInTenant(t: Table, s: Step, t': Table)
    requires Takes(t, s, t') && ParentsStayInTenant(t) && NamesOwnParent(t, s)
    ensures ParentsStayInTenant(t')
  {
    hide Finite, TrimSpace, ToLower, CodeTaken;
  }

  /** In particular, checking that a new parent belongs to the tenant would be enough. */
  lemma {:induction false} OwnParentsStayAcyclic(tables: seq<Table>, steps: seq<Step>, i: nat)
    requires IsRun(tables, steps) && i < |tables|
    requires forall k :: 0 <= k < i ==> NamesOwnParent(tables[k], steps[k])
    ensures ParentsStayInTenant(tables[i]) && Acyclic(AllParents(tables[i]))
    decreases i
  {
    hide Takes, NamesOwnParent, Acyclic;
    if i > 0 {
      OwnParentsStayAcyclic(tables, steps, i - 1);
      StepStaysInTenant(tables[i - 1], steps[i - 1], tables[i]);
    }
    RunsStayAcyclic(tables, steps, i);
    GloballyAcyclic(tables[i]);
  }

  /** When no parent lies in another tenant, the whole table is acyclic too. */
  lemma GloballyAcyclic(t: Table)
    requires Sound(t) && ParentsStayInTenant(t)
    ensures Acyclic(AllParents(t))
  {
    forall x, n: nat | n >= 1 ensures Up(AllParents(t), x, n) != Some(x) {
      if x in t {
        OneTenantChain(t, t[x].tenant, x, n);
        assert Acyclic(TenantParents(t, t[x].tenant));
      } else {
        assert Parent(AllParents(t), x).None?;
      }
    }
  }

  lemma {:induction false} OneTenantChain(t: Table, tenant: Id, x: Id, n: nat)
    requires ParentsStayInTenant(t) && x in t && t[x].tenant == tenant
    ensures Up(AllParents(t), x, n) == Up(TenantParents(t, tenant), x, n)
    decreases n
  {
    if n > 0 && Parent(AllParents(t), x).Some? {
      OneTenantChain(t, tenant, Parent(AllParents(t), x).value, n - 1);
    }
  }

  /** A root named by one letter. */
  function Root(tenant: Id, letter: char): Row {
    Row(tenant, None, [letter], [letter], "", COMPANY, ACTIVE, map[])
  }

  function RootCommand(tenant: Id, letter: char): CreateCommand {
    CreateCommand(tenant, None, [letter], [letter], "", "", None)
  }

  lemma PlainNames(tenant: Id, letter: char)
    requires 'a' <= letter <= 'z'
    ensures NewRow(RootCommand(tenant, letter)) == Root(tenant, letter)
  {
    OneLetter(letter);
    BlankStaysBlank();
    hide TrimSpace, ToLower;
  }

  lemma OneLetter(c: char)
    requires !IsSpace(c)
    ensures TrimSpace([c]) == [c] && ToLower([c]) == [Lower(c)]
  {
  }

  /** `Update` does not check whose organization the new parent is: two tenants can close a cycle
      between them although each sees an acyclic hierarchy. */
  lemma TwoTenantsCanCloseACycle() returns (tables: seq<Table>, steps: seq<Step>)
    ensures IsRun(tables, steps) && Sound(tables[|steps|]) && !Acyclic(AllParents(tables[|steps|]))
  {
    hide NewRow, TrimSpace;
    var one, two, x, y := Uuid(1), Uuid(2), Uuid(10), Uuid(20);
    PlainNames(one, 'a');
    PlainNames(two, 'b');
    BlankStaysBlank();
    var a, b := Root(one, 'a'), Root(two, 'b');
    var t1: Table := map[x := a];
    var t2: Table := map[x := a, y := b];
    var t3: Table := map[x := a.(parent := Some(y)), y := b];
    var t4: Table := map[x := a.(parent := Some(y)), y := b.(parent := Some(x))];
    var u3 := UpdateCommand(one, x, Some(y), "", "", "", "", None);
    var u4 := UpdateCommand(two, y, Some(x), "", "", "", "", None);
    var empty: Table := map[];
    tables := [empty, t1, t2, t3, t4];
    steps := [CreateStep(RootCommand(one, 'a'), x), CreateStep(RootCommand(two, 'b'), y),
              UpdateStep(u3), UpdateStep(u4)];
    assert Updated(t2, u3, t3) by {
      var pm := TenantParents(t2, one)[x := Some(y)];
      assert Parent(pm, y).None? && Up(pm, y, 1).None? && Up(pm, x, 2).None?;
      assert t3 == t2[x := a.(parent := Some(y))];
    }
    assert Updated(t3, u4, t4) by {
      var pm := TenantParents(t3, two)[y := Some(x)];
      assert Parent(pm, x).None? && Up(pm, x, 1).None? && Up(pm, y, 2).None?;
      assert t4 == t3[y := b.(parent := Some(x))];
    }
    RunsStayAcyclic(tables, steps, 4);
    var all := AllParents(t4);
    assert Up(all, x, 1) == Up(all, y, 0) && Up(all, x, 2) == Up(all, y, 1) == Up(all, x, 0);
  }
}
