/** `CreateSequence` of `internal/core/usecase/sequence/sequence_usecase.go` on the table of all number
    sequences, with its unique constraints. */
module SequenceUsecase {
  import opened Shared
  import opened Text
  import opened NumberFormat
  import opened SequenceEngine

  datatype Row = Row(tenant: Id, code: string, name: string, entityType: string, subType: string, counter: Sequence)

  type Table = map<Id, Row>

  datatype Request = Request(
    tenant: Id, code: string, name: string, entityType: string, subType: string, policy: string,
    prefix: string, suffix: string, template: string, padding: int, startValue: int, incrementBy: int)

  datatype CreateError = TenantRequired | InvalidInput | AlreadyExists | StorageFailed

  /** Which reads and writes of the call fail. */
  datatype Faults = Faults(codeReadOk: bool, entityReadOk: bool, insertOk: bool)

  /** `ResetPolicy.IsValid`, and the policy meant. */
  function ParsePolicy(name: string): Option<ResetPolicy> {
    if name == "never" then Some(Never)
    else if name == "yearly" then Some(Yearly)
    else if name == "monthly" then Some(Monthly)
    else if name == "daily" then Some(Daily)
    else None
  }

  function PolicyName(p: ResetPolicy): string {
    match p
    case Never => "never"
    case Yearly => "yearly"
    case Monthly => "monthly"
    case Daily => "daily"
  }

  /** Exactly the four policy names are understood, each as its policy. */
  lemma PolicyNames(name: string, p: ResetPolicy)
    ensures ParsePolicy(name) == Some(p) <==> name == PolicyName(p)
  {
    var a, b, c, d := "never", "yearly", "monthly", "daily";
    assert a[0] == 'n' && b[0] == 'y' && c[0] == 'm' && d[0] == 'd';
  }

  function Key(s: string): string {
    ToLower(TrimSpace(s))
  }

  /** The row that a successful call inserts. */
  function NewRow(r: Request): Row {
    Row(r.tenant, Key(r.code), TrimSpace(r.name), Key(r.entityType), Key(r.subType),
        Created(CreateCommand(r.prefix, r.suffix, r.template, r.padding, r.startValue, r.incrementBy,
                              ParsePolicy(r.policy))))
  }

  predicate Acceptable(r: Request) {
    && r.tenant != NIL_ID
    && NewRow(r).code != "" && NewRow(r).name != "" && NewRow(r).entityType != "" && NewRow(r).subType != ""
    && (r.policy == "" || ParsePolicy(r.policy).Some?)
  }

  predicate SameCode(a: Row, b: Row) {
    a.tenant == b.tenant && a.code == b.code
  }

  predicate SameEntity(a: Row, b: Row) {
    a.tenant == b.tenant && a.entityType == b.entityType && a.subType == b.subType
  }

  predicate CodeTaken(t: Table, row: Row) {
    exists x :: x in t && SameCode(t[x], row)
  }

  predicate EntityTaken(t: Table, row: Row) {
    exists x :: x in t && SameEntity(t[x], row)
  }

  /** What `GetByEntity` sees. */
  predicate ActiveEntityTaken(t: Table, row: Row) {
    exists x :: x in t && SameEntity(t[x], row) && t[x].counter.active
  }

  /** A code is taken within its tenant, an entity type together with its sub-type. */
  lemma TakenIff(t: Table, row: Row)
    ensures CodeTaken(t, row) <==> exists x :: x in t && t[x].tenant == row.tenant && t[x].code == row.code
    ensures EntityTaken(t, row) <==>
            exists x :: x in t && t[x].tenant == row.tenant && t[x].entityType == row.entityType
                        && t[x].subType == row.subType
    ensures ActiveEntityTaken(t, row) <==>
            exists x :: x in t && t[x].tenant == row.tenant && t[x].entityType == row.entityType
                        && t[x].subType == row.subType && t[x].counter.active
  {
  }

  /** The two unique constraints of the table: in particular a tenant, entity type and sub-type have one
      counter, active or not. */
  ghost predicate Unique(t: Table) {
    forall a, b :: a in t && b in t && (SameCode(t[a], t[b]) || SameEntity(t[a], t[b])) ==> a == b
  }

  class Usecase {
    var table: Table

    constructor ()
      ensures table == map[]
    {
      table := map[];
    }

    /** The duplicate check on entity and sub-type sees active sequences only; where an inactive one
        exists it passes, and the insert fails on the unique constraint. */
    method CreateSequence(r: Request, id: Id, f: Faults) returns (err: Option<CreateError>)
      requires id !in table
      modifies this
      ensures table == if err.None? then old(table)[id := NewRow(r)] else old(table)
      ensures err.None? <==>
              && Acceptable(r) && !CodeTaken(old(table), NewRow(r)) && !EntityTaken(old(table), NewRow(r))
              && f.codeReadOk && f.entityReadOk && f.insertOk
      ensures err == Some(TenantRequired) <==> r.tenant == NIL_ID
      ensures err == Some(TenantRequired) || err == Some(InvalidInput) <==> !Acceptable(r)
      ensures err == Some(AlreadyExists) <==>
              && Acceptable(r) && f.codeReadOk
              && (CodeTaken(old(table), NewRow(r)) || (f.entityReadOk && ActiveEntityTaken(old(table), NewRow(r))))
      ensures err.None? ==>
              && table[id].tenant == r.tenant && table[id].code == ToLower(TrimSpace(r.code)) != ""
              && table[id].entityType == ToLower(TrimSpace(r.entityType)) != ""
              && table[id].subType == ToLower(TrimSpace(r.subType)) != "" && table[id].name == TrimSpace(r.name) != ""
      ensures (&& Acceptable(r) && !CodeTaken(old(table), NewRow(r))
               && EntityTaken(old(table), NewRow(r)) && !ActiveEntityTaken(old(table), NewRow(r))) ==>
              err == Some(StorageFailed)
      ensures err.None? ==> Fresh(NewRow(r).counter) && NewRow(r).counter.active
      ensures old(Unique(table)) ==> Unique(table)
    {
      hide ToLower, TrimSpace, EffectiveTemplate, Fresh;
      if r.tenant == NIL_ID { return Some(TenantRequired); }
      var code, name, entityType, subType := Key(r.code), TrimSpace(r.name), Key(r.entityType), Key(r.subType);
      if code == "" || name == "" || entityType == "" || subType == "" { return Some(InvalidInput); }
      var policy := ParsePolicy(r.policy);
      if r.policy != "" && policy.None? { return Some(InvalidInput); }
      var counter := Created(
        CreateCommand(r.prefix, r.suffix, r.template, r.padding, r.startValue, r.incrementBy, policy));
      var row := Row(r.tenant, code, name, entityType, subType, counter);
      if !f.codeReadOk { return Some(StorageFailed); }
      if CodeTaken(table, row) { return Some(AlreadyExists); }
      if !f.entityReadOk { return Some(StorageFailed); }
      if ActiveEntityTaken(table, row) { return Some(AlreadyExists); }
      if !f.insertOk || EntityTaken(table, row) { return Some(StorageFailed); }
      table := table[id := row];
      return None;
    }
  }
}
