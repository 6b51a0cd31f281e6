/** Properties of the transaction routes that relate a request to the state
    before it: which customer a settlement charges, that every route keeps
    the store invariant, and how the amounts hang together. */
module Ledger {
  import opened Base
  import opened Text
  import opened CustomerModel
  import opened EntryModel
  import opened TransactionModel
  import opened Store
  import opened TransactionRoutes

  /** A successful settlement saves one transaction for the entry under a
      fresh id, and advances the counter past it. */
  lemma SettleSaves(st: State, req: SettleRequest, r: Response<Doc<Transaction>>)
    requires r == Settle(st, req) && r.result.Ok?
    ensures r.result.value.rec.entryId == req.entryId
    ensures r.st.transactions == st.transactions[r.result.value.id := r.result.value.rec]
    ensures st.clock <= r.result.value.id < r.st.clock
  {
    var d := r.result.value;
    assert BuildTransaction(st.entries[req.entryId], req.entryId, d.rec.customerId, req, d.id) == Ok(d.rec);
  }

  /** When the truck is already registered, settlement charges that
      customer: balance replaced by the new final balance, one more trip,
      name, truck and contact untouched, and no customer created. */
  lemma SettleReusesCustomer(st: State, req: SettleRequest, r: Response<Doc<Transaction>>)
    requires Wf(st) && req.entryId in st.entries
    requires HasCustomer(st, st.entries[req.entryId].truckNumber)
    requires r == Settle(st, req) && r.result.Ok?
    ensures r.result.value.rec.customerId in st.customers
    ensures st.customers[r.result.value.rec.customerId].truckNumber == TruckKey(st.entries[req.entryId].truckNumber)
    ensures r.result.value.id == st.clock
    ensures var d := r.result.value; var cid := d.rec.customerId;
      r.st.customers == st.customers[cid := Charge(st.customers[cid], d.rec.finalBalance, st.clock)]
  {
    var e := st.entries[req.entryId];
    var res := Resolve(st, e);
    assert res.Ok? && res.value.Existing?;
    assert r == Record(st, req, e, res.value);
  }

  /** When the truck is not registered, settlement registers it under the
      next id, from the entry's name and contact, and that customer ends
      with the transaction's final balance and one trip. */
  lemma SettleCreatesCustomer(st: State, req: SettleRequest, r: Response<Doc<Transaction>>)
    requires Wf(st) && req.entryId in st.entries
    requires !HasCustomer(st, st.entries[req.entryId].truckNumber)
    requires r == Settle(st, req) && r.result.Ok?
    ensures r.result.value.rec.customerId == st.clock
    ensures r.result.value.rec.customerId !in st.customers
    ensures r.result.value.id == st.clock + 1
    ensures var d := r.result.value; var e := st.entries[req.entryId];
      r.st.customers == st.customers[st.clock := Customer(
           Trim(e.customerName), TruckKey(e.truckNumber), Trim(e.contactNumber),
           d.rec.finalBalance, 1, st.clock, st.clock)]
  {
    var e := st.entries[req.entryId];
    var res := Resolve(st, e);
    assert res.Ok? && res.value.Created?;
    assert r == Record(st, req, e, res.value);
    ChargeFirst(res.value.customer, r.result.value.rec.finalBalance, st.clock);
  }

  /** Charging a customer with no trips yet gives it its first trip. */
  lemma ChargeFirst(c: Customer, finalBalance: int, now: nat)
    requires c.totalTransactions == 0
    ensures Charge(c, finalBalance, now)
      == Customer(c.name, c.truckNumber, c.contactNumber, finalBalance, 1, c.createdAt, now)
  {
  }

  /** A settlement whose transaction cannot be saved (a required value
      missing, an unknown payment method) still leaves behind the customer
      it registered for the truck, with balance 0 and no trips: the source
      saves the customer before it validates the transaction. */
  lemma SettleFailureKeepsNewCustomer(st: State, req: SettleRequest)
    requires Wf(st) && req.entryId in st.entries
    requires var e := st.entries[req.entryId];
      && !HasCustomer(st, e.truckNumber)
      && NewCustomer(e.customerName, e.truckNumber, e.contactNumber, st.clock).Ok?
    requires !RequestComplete(req)
    ensures var r := Settle(st, req); var e := st.entries[req.entryId];
      && r.result == Err(Invalid)
      && r.st.customers == st.customers[st.clock := NewCustomer(e.customerName, e.truckNumber, e.contactNumber, st.clock).value]
      && r.st.entries == st.entries && r.st.transactions == st.transactions
      && st.clock !in st.customers
  {
    var e := st.entries[req.entryId];
    var res := Resolve(st, e);
    assert res.Ok? && res.value.Created?;
    assert Settle(st, req) == Record(st, req, e, res.value);
  }

  /** Settlement keeps the store invariant: no second customer for a
      truck, trip counts non-negative, ids issued in creation order. */
  lemma SettleWf(st: State, req: SettleRequest)
    requires Wf(st)
    ensures Wf(Settle(st, req).st)
  {
    if req.entryId in st.entries {
      var e := st.entries[req.entryId];
      var res := Resolve(st, e);
      if res.Ok? {
        assert Settle(st, req) == Record(st, req, e, res.value);
        RecordWf(st, req, e, res.value);
      }
    }
  }

  /** The writes after resolution keep the invariant, given what the
      resolution guarantees. */
  lemma RecordWf(st: State, req: SettleRequest, e: Entry, res: Resolution)
    requires Wf(st)
    requires req.entryId in st.entries && e == st.entries[req.entryId]
    requires res.Existing? ==> res.id in st.customers
    requires res.Created? ==> var c := res.customer;
      && CustomerModel.Valid(c) && c.totalTransactions >= 0 && c.createdAt == st.clock
      && forall k :: k in st.customers ==> st.customers[k].truckNumber != c.truckNumber
    ensures Wf(Record(st, req, e, res).st)
  {
    var r := Record(st, req, e, res);
    if res.Existing? {
      RecordExistingWf(st, req, e, res, r);
    } else {
      RecordCreatedWf(st, req, e, res, r);
    }
  }

  /** The writes of a settlement that charges a registered customer keep
      the invariant. */
  lemma RecordExistingWf(st: State, req: SettleRequest, e: Entry, res: Resolution, r: Response<Doc<Transaction>>)
    requires Wf(st)
    requires req.entryId in st.entries && e == st.entries[req.entryId]
    requires res.Existing? && res.id in st.customers
    requires r == Record(st, req, e, res)
    ensures Wf(r.st)
  {
    if r.result.Ok? {
      CommitWf(st, res.id, req.entryId, e, r.result.value.rec, st.clock);
    }
  }

  /** The writes of a settlement that registers its customer keep the
      invariant, whether or not the transaction is then saved. */
  lemma RecordCreatedWf(st: State, req: SettleRequest, e: Entry, res: Resolution, r: Response<Doc<Transaction>>)
    requires Wf(st)
    requires req.entryId in st.entries && e == st.entries[req.entryId]
    requires res.Created? && var c := res.customer;
      && CustomerModel.Valid(c) && c.totalTransactions >= 0 && c.createdAt == st.clock
      && forall k :: k in st.customers ==> st.customers[k].truckNumber != c.truckNumber
    requires r == Record(st, req, e, res)
    ensures Wf(r.st)
  {
    var st1 := State(st.customers[st.clock := res.customer], st.entries, st.transactions, st.clock + 1);
    AddCustomerWf(st, res.customer);
    if r.result.Ok? {
      var d := r.result.value;
      assert d.rec.customerId == st.clock && d.id == st1.clock;
      assert r.st == State(
        st1.customers[st.clock := Charge(st1.customers[st.clock], d.rec.finalBalance, st.clock)],
        st1.entries[req.entryId := Close(e, st.clock)],
        st1.transactions[st1.clock := d.rec],
        st1.clock + 1);
      CommitWf(st1, st.clock, req.entryId, e, d.rec, st.clock);
    } else {
      assert r.st == st1;
    }
  }

  /** The three writes of a settlement keep the invariant. */
  lemma CommitWf(st: State, cid: Id, entryId: Id, e: Entry, t: Transaction, now: nat)
    requires Wf(st) && cid in st.customers
    requires entryId in st.entries && e.createdAt == entryId && EntryModel.Valid(e)
    requires t.createdAt == st.clock && t.customerId == cid && TransactionModel.Valid(t)
    ensures Wf(State(
      st.customers[cid := Charge(st.customers[cid], t.finalBalance, now)],
      st.entries[entryId := Close(e, cid)],
      st.transactions[st.clock := t],
      st.clock + 1))
  {
    var c' := Charge(st.customers[cid], t.finalBalance, now);
    PutCustomerWf(st, cid, c');
    var st2 := State(st.customers[cid := c'], st.entries, st.transactions, st.clock);
    PutEntryWf(st2, entryId, Close(e, cid));
    var st3 := State(st2.customers, st2.entries[entryId := Close(e, cid)], st2.transactions, st2.clock);
    AddTransactionWf(st3, t);
  }

  /** Under the invariant a settlement of a stored entry, completed or
      not, succeeds exactly when the request carries every value the
      transaction schema requires and the customer is registered or can be
      registered from the entry's name, truck and contact. */
  lemma SettleSucceeds(st: State, req: SettleRequest)
    requires Wf(st) && req.entryId in st.entries
    ensures var e := st.entries[req.entryId];
      Settle(st, req).result.Ok? <==>
        && RequestComplete(req)
        && (|| HasCustomer(st, e.truckNumber)
            || (Trim(e.customerName) != "" && TruckKey(e.truckNumber) != "" && Trim(e.contactNumber) != ""))
  {
    assert EntryModel.Valid(st.entries[req.entryId]);
  }

  /** What a successful settlement does, whichever way its customer was
      found: the invariant holds after it, the transaction gets a fresh
      id, the entry is closed, and the customer carries the new balance
      with one more trip than before (one in all for a new customer). */
  lemma SettleEffects(st: State, req: SettleRequest, r: Response<Doc<Transaction>>)
    requires Wf(st) && r == Settle(st, req) && r.result.Ok?
    ensures Wf(r.st)
    ensures r.result.value.id >= st.clock && r.result.value.id !in st.transactions
    ensures r.st.transactions == st.transactions[r.result.value.id := r.result.value.rec]
    ensures var cid := r.result.value.rec.customerId;
      r.st.entries == st.entries[req.entryId := Close(st.entries[req.entryId], cid)]
    ensures var cid := r.result.value.rec.customerId;
      cid in r.st.customers && r.st.customers[cid].balance == r.result.value.rec.finalBalance
    ensures var cid := r.result.value.rec.customerId;
      cid in st.customers ==> r.st.customers[cid].totalTransactions == st.customers[cid].totalTransactions + 1
    ensures var cid := r.result.value.rec.customerId;
      cid !in st.customers ==> cid == st.clock && r.st.customers[cid].totalTransactions == 1
  {
    SettleWf(st, req);
    if HasCustomer(st, st.entries[req.entryId].truckNumber) {
      SettleReusesCustomer(st, req, r);
    } else {
      SettleCreatesCustomer(st, req, r);
    }
  }

  /** The settled transaction is its customer's newest, and the customer's
      balance is that transaction's final balance. */
  lemma SettleBalanceIsLatest(st: State, req: SettleRequest)
    requires Wf(st) && Settle(st, req).result.Ok?
    ensures var r := Settle(st, req); var d := r.result.value;
      && NewestOther(r.st.transactions, r.st.clock, d.rec.customerId, d.id)
      && r.st.customers[d.rec.customerId].balance == r.st.transactions[d.id].finalBalance
  {
    var r := Settle(st, req);
    var d := r.result.value;
    SettleWf(st, req);
    assert d.id < r.st.clock;
    assert r.st.transactions[d.id].createdAt == d.id;
  }

  /** If the client did its arithmetic, the stored transaction is
      consistent: settlement stores the amounts it is given. */
  lemma SettleConsistent(st: State, req: SettleRequest)
    requires Settle(st, req).result.Ok?
    requires RequestComplete(req)
    requires req.entryId in st.entries && ClientArithmetic(st.entries[req.entryId], req)
    ensures Consistent(Settle(st, req).result.value.rec)
  {
  }

  /** An edit that supplies `paidNow` keeps a consistent transaction
      consistent, whatever weight and rate it changes. */
  lemma EditWithPaymentStaysConsistent(t: Transaction, req: EditRequest)
    requires Consistent(t) && req.paidNow.Some?
    ensures Consistent(Recompute(t, req))
  {
  }

  /** An edit that changes only the loaded weight, not the rate or
      `paidNow`, recomputes
      the total and leaves the final balance stale. */
  lemma EditWithoutPaymentGoesStale(t: Transaction, req: EditRequest)
    requires Consistent(t) && req.paidNow.None?
    requires Supplied(req.loadedWeight) && req.loadedWeight.value != t.loadedWeight
    requires !Supplied(req.ratePerKg) && t.ratePerKg != 0
    ensures !Consistent(Recompute(t, req))
    ensures Recompute(t, req).finalBalance == t.finalBalance
  {
    var r := Recompute(t, req);
    assert r.totalAmount - t.totalAmount == t.ratePerKg * (r.netWeight - t.netWeight);
  }

  /** Editing keeps the store invariant. */
  lemma EditWf(st: State, id: Id, req: EditRequest)
    requires Wf(st)
    ensures Wf(Edit(st, id, req).st)
  {
    var r := Edit(st, id, req);
    if id in st.transactions {
      var t := st.transactions[id];
      var cid := t.customerId;
      var st1 := st;
      if req.paidNow.Some? && cid in st.customers {
        var c := st.customers[cid];
        var c' := Rebalance(c, Recompute(t, req).finalBalance, st.clock);
        assert CustomerModel.Valid(c) && c.totalTransactions >= 0 && c.createdAt == cid;
        forall k | k in st.customers && k != cid ensures st.customers[k].truckNumber != c'.truckNumber {
          assert TrucksUnique(st.customers);
        }
        PutCustomerWf(st, cid, c');
        st1 := State(st.customers[cid := c'], st.entries, st.transactions, st.clock);
      }
      if r.result.Ok? {
        var t' := r.result.value.rec;
        var u := Recompute(t, req);
        assert t'.(paymentMethod := t.paymentMethod) == u;
        assert t'.createdAt == u.createdAt == t.createdAt && t'.customerId == u.customerId == t.customerId;
        assert TransactionModel.Valid(u);
        PutTransactionWf(st1, id, t');
      }
    }
  }

  /** Reversal keeps the store invariant; in particular the trip count
      never goes below 0. */
  lemma DeleteWf(st: State, id: Id)
    requires Wf(st)
    ensures Wf(Delete(st, id).st)
  {
    if id in st.transactions {
      var t := st.transactions[id];
      var cid := t.customerId;
      var st1 := st;
      if cid in st.customers {
        var c := st.customers[cid];
        var c' := Uncharge(c, LatestBalance(st, id, cid), st.clock);
        assert CustomerModel.Valid(c) && c.createdAt == cid;
        forall k | k in st.customers && k != cid ensures st.customers[k].truckNumber != c'.truckNumber {
          assert TrucksUnique(st.customers);
        }
        PutCustomerWf(st, cid, c');
        st1 := State(st.customers[cid := c'], st.entries, st.transactions, st.clock);
      }
      if t.entryId in st.entries {
        var e := st.entries[t.entryId];
        assert EntryModel.Valid(e) && e.createdAt == t.entryId;
        PutEntryWf(st1, t.entryId, Reopen(e));
      }
    }
  }
}
