/**
 The store's methods, statement by statement inside one transaction that owns the request's row.
 Each is proved to be the atomic operation of Ledger.dfy, or nothing at all.
 */
module Store {
  import opened Prelude
  import opened Ledger

  /**
   What goes wrong while a method runs: nothing, or the answer to one of its database calls is an
   error. `landed` says whether a COMMIT whose answer was lost took effect all the same.
   */
  datatype Trouble = Healthy | Broken(call: nat, landed: bool) {
    predicate At(n: nat) { Broken? && call == n }
  }

  class Store {
    var tenants: set<Tenant>
    var requests: map<Row, Request>
    var byKey: map<KeyOf, Reference>
    var approvals: set<Approval>
    var executions: map<Attempt, Execution>

    constructor (tenants: set<Tenant>)
      ensures View() == Empty(tenants)
    {
      this.tenants, requests, byKey, approvals, executions := tenants, map[], map[], {}, map[];
    }

    function View(): Tables
      reads this
    {
      Tables(tenants, requests, byKey, approvals, executions)
    }

    method Rollback(saved: Tables)
      modifies this
      ensures View() == saved
    {
      tenants, requests, byKey, approvals, executions :=
        saved.tenants, saved.requests, saved.byKey, saved.approvals, saved.executions;
    }

    /** One upsert: the arbiter index decides first, and a surviving row is returned unchanged. */
    method Submit(tenant: Tenant, drawn: Reference, s: Submission, trouble: Trouble) returns (reply: Reply<Reference>)
      modifies this
      ensures var (after, answer) := Ledger.Submit(old(View()), tenant, drawn, s);
              && (trouble.Healthy? ==> View() == after && reply == answer)
              && (reply.Done? ==> View() == after && reply == answer)
              && (!reply.Done? ==> View() == old(View()) || (trouble.At(0) && trouble.landed && View() == after))
    {
      var saved := View();
      if !SubmissionFits(drawn, s) {
        return Fault;
      }
      var index := KeyOf(tenant, s.key);
      if index in byKey {
        reply := Done(byKey[index]);
      } else {
        var row := Row(tenant, drawn);
        if row in requests || tenant !in tenants {
          return Fault;
        }
        requests := requests[row := Request(s, Pending)];
        byKey := byKey[index := drawn];
        reply := Done(drawn);
      }
      if trouble.At(0) {
        if !trouble.landed { Rollback(saved); }
        reply := Fault;
      }
    }

    /** One SELECT, call 0. */
    method GetRequest(tenant: Tenant, reference: Reference, trouble: Trouble) returns (reply: Reply<Request>)
      ensures reply == if trouble.At(0) then Fault
                       else if Row(tenant, reference) in requests then Done(requests[Row(tenant, reference)])
                       else NoSuchRequest
    {
      var row := Row(tenant, reference);
      if trouble.At(0) {
        return Fault;
      }
      if row !in requests {
        return NoSuchRequest;
      }
      reply := Done(requests[row]);
    }

    /** Calls: 0 BEGIN, 1 SELECT FOR UPDATE, 2 INSERT approval, 3 UPDATE state, 4 COMMIT. */
    method Approve(row: Row, approver: string, stage: nat, trouble: Trouble) returns (reply: Reply<()>)
      modifies this
      ensures var (after, answer) := Ledger.Approve(old(View()), row, approver, stage);
              && (trouble.Healthy? ==> View() == after && reply == answer)
              && (reply.Done? ==> View() == after && reply == answer)
              && (!reply.Done? ==> View() == old(View()) || (trouble.At(4) && trouble.landed && View() == after))
    {
      var saved := View();
      if trouble.At(0) || trouble.At(1) {
        return Fault;
      }
      if row !in requests {
        return NoSuchRequest;
      }
      var state := requests[row].state;
      if state != Pending && state != Approved {
        return WrongState;
      }
      if !ApprovalFits(stage, approver) || trouble.At(2) {
        return Fault;
      }
      approvals := approvals + {Approval(row, stage, approver)};
      if trouble.At(3) {
        Rollback(saved);
        return Fault;
      }
      requests := requests[row := requests[row].(state := Approved)];
      if trouble.At(4) {
        if !trouble.landed { Rollback(saved); }
        return Fault;
      }
      reply := Done(());
    }

    /** Calls: 0 BEGIN, 1 SELECT FOR UPDATE, 2 EXISTS, 3 upsert, 4 UPDATE state, 5 COMMIT. */
    method RecordExecution(row: Row, nonce: Nonce, e: Execution, trouble: Trouble) returns (reply: Reply<Execution>)
      modifies this
      ensures var (after, answer) := Ledger.RecordExecution(old(View()), row, nonce, e);
              && (trouble.Healthy? ==> View() == after && reply == answer)
              && (reply.Done? ==> View() == after && reply == answer)
              && (!reply.Done? ==> View() == old(View()) || (trouble.At(5) && trouble.landed && View() == after))
    {
      var saved := View();
      var attempt := Attempt(row, nonce);
      if trouble.At(0) || trouble.At(1) {
        return Fault;
      }
      if row !in requests {
        return NoSuchRequest;
      }
      var state := requests[row].state;
      if state != Approved {
        if state != Executed && state != Indeterminate {
          return WrongState;
        }
        if trouble.At(2) {
          return Fault;
        }
        var known := attempt in executions;
        if !known {
          return WrongState;
        }
      }
      if !ExecutionFits(nonce, e) || trouble.At(3) {
        return Fault;
      }
      var stored := e;
      if attempt in executions {
        stored := executions[attempt];
      } else {
        executions := executions[attempt := e];
      }
      if stored.outcome != e.outcome || !SameRows(stored.rows, e.rows) {
        Rollback(saved);
        return WrongState;
      }
      assert stored == e && executions == saved.executions[attempt := e];
      var next := Follows(stored.outcome);
      if state == Approved {
        if trouble.At(4) {
          Rollback(saved);
          return Fault;
        }
        requests := requests[row := requests[row].(state := next)];
      }
      if trouble.At(5) {
        if !trouble.landed { Rollback(saved); }
        return Fault;
      }
      reply := Done(stored);
    }
  }

  predicate SameRows(a: Option<int>, b: Option<int>) {
    if a == None || b == None then a == None && b == None else a.value == b.value
  }
}
