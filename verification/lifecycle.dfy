/** Sequences of requests: what the routes allow when used one after
    another, including the states the declared indexes would forbid. */
module Lifecycle {
  import opened Base
  import opened Text
  import opened CustomerModel
  import opened EntryModel
  import opened TransactionModel
  import opened Store
  import CustomerRoutes
  import EntryRoutes
  import TransactionRoutes
  import Ledger

  /** A request the gate lets through and that carries every required
      field is accepted, stores one more entry under the next id, and
      leaves the gate's answer for the next request unchanged. */
  lemma CreateSucceeds(st: State, req: EntryRoutes.EntryRequest, r: Response<Doc<Entry>>)
    requires Wf(st) && !EntryRoutes.GateRefuses(st, req) && !EntryRoutes.MissingField(req)
    requires r == EntryRoutes.Create(st, req)
    ensures r.result.Ok? && Wf(r.st) && !EntryRoutes.GateRefuses(r.st, req)
    ensures r.result.value.id == st.clock && r.st.clock == st.clock + 1
    ensures r.st.entries == st.entries[st.clock := r.result.value.rec]
    ensures |r.st.entries| == |st.entries| + 1
    ensures r.result.value.rec.entryNumber == EntryNumber(|st.entries|)
    ensures !r.result.value.rec.completed && r.result.value.rec.truckNumber == Upper(req.truckNumber)
  {
    assert st.clock !in st.entries;
    GateSeesOnlyCustomers(st, r.st, req);
  }

  /** Creation never looks at pending entries: the same request accepted
      twice leaves two pending entries for the same truck. */
  lemma DuplicatePendingReachable(st: State, req: EntryRoutes.EntryRequest, r1: Response<Doc<Entry>>, r2: Response<Doc<Entry>>)
    requires Wf(st) && !EntryRoutes.GateRefuses(st, req) && !EntryRoutes.MissingField(req)
    requires r1 == EntryRoutes.Create(st, req) && r2 == EntryRoutes.Create(r1.st, req)
    ensures r1.result.Ok? && r2.result.Ok?
    ensures var a := r1.result.value.id; var b := r2.result.value.id;
      && a != b && a in r2.st.entries && b in r2.st.entries
      && !r2.st.entries[a].completed && !r2.st.entries[b].completed
      && r2.st.entries[a].truckNumber == r2.st.entries[b].truckNumber
  {
    CreateSucceeds(st, req, r1);
    CreateSucceeds(r1.st, req, r2);
  }

  /** The customer-type gate reads nothing but the customer collection. */
  lemma GateSeesOnlyCustomers(st: State, st': State, req: EntryRoutes.EntryRequest)
    requires st'.customers == st.customers
    ensures EntryRoutes.GateRefuses(st', req) == EntryRoutes.GateRefuses(st, req)
  {
    assert HasCustomer(st', req.truckNumber) == HasCustomer(st, req.truckNumber);
  }

  /** Numbering from the current count reissues a number still in use:
      create two entries, delete the first, create a third, and the third
      carries the second's number. */
  lemma EntryNumberCollision(
    st: State, req: EntryRoutes.EntryRequest,
    r1: Response<Doc<Entry>>, r2: Response<Doc<Entry>>, st3: State, r4: Response<Doc<Entry>>)
    requires Wf(st) && !EntryRoutes.GateRefuses(st, req) && !EntryRoutes.MissingField(req)
    requires r1 == EntryRoutes.Create(st, req) && r2 == EntryRoutes.Create(r1.st, req)
    requires r1.result.Ok? && st3 == EntryRoutes.Delete(r2.st, r1.result.value.id).st
    requires r4 == EntryRoutes.Create(st3, req)
    ensures r2.result.Ok? && r4.result.Ok?
    ensures var b := r2.result.value.id; var c := r4.result.value.id;
      && b != c && b in r4.st.entries && c in r4.st.entries
      && r4.st.entries[b].entryNumber == r4.st.entries[c].entryNumber
    ensures !EntryNumbersUnique(r4.st.entries)
  {
    TwoCreates(st, req, r1, r2);
    DeleteThenCreate(r2.st, r1.result.value.id, r2.result.value.id, req, st3, r4);
  }

  /** Deleting one entry and creating another reissues the number of the
      newest entry when that number was issued from the count before. */
  lemma DeleteThenCreate(st: State, a: Id, b: Id, req: EntryRoutes.EntryRequest, st3: State, r4: Response<Doc<Entry>>)
    requires Wf(st) && !EntryRoutes.GateRefuses(st, req) && !EntryRoutes.MissingField(req)
    requires a != b && a in st.entries && b in st.entries
    requires st.entries[b].entryNumber == EntryNumber(|st.entries| - 1)
    requires st3 == EntryRoutes.Delete(st, a).st && r4 == EntryRoutes.Create(st3, req)
    ensures r4.result.Ok?
    ensures var c := r4.result.value.id;
      && b != c && b in r4.st.entries && c in r4.st.entries
      && r4.st.entries[b] == st.entries[b]
      && r4.st.entries[b].entryNumber == r4.st.entries[c].entryNumber
    ensures !EntryNumbersUnique(r4.st.entries)
  {
    DeleteKeepsGate(st, a, req);
    CreateReusesNumber(st3, req, r4, b);
  }

  /** A creation numbers its entry from the current count; if a stored
      entry already carries that number, the two now share it. */
  lemma CreateReusesNumber(st: State, req: EntryRoutes.EntryRequest, r: Response<Doc<Entry>>, b: Id)
    requires Wf(st) && !EntryRoutes.GateRefuses(st, req) && !EntryRoutes.MissingField(req)
    requires b in st.entries && st.entries[b].entryNumber == EntryNumber(|st.entries|)
    requires r == EntryRoutes.Create(st, req)
    ensures r.result.Ok?
    ensures var c := r.result.value.id;
      && b != c && b in r.st.entries && c in r.st.entries
      && r.st.entries[b] == st.entries[b]
      && r.st.entries[b].entryNumber == r.st.entries[c].entryNumber
    ensures !EntryNumbersUnique(r.st.entries)
  {
    CreateSucceeds(st, req, r);
    var c := r.result.value.id;
    assert b < st.clock == c;
    SharedNumber(r.st.entries, b, c);
  }

  /** Two accepted creations in a row: the second entry is numbered from
      a count one higher, and both entries are stored. */
  lemma TwoCreates(st: State, req: EntryRoutes.EntryRequest, r1: Response<Doc<Entry>>, r2: Response<Doc<Entry>>)
    requires Wf(st) && !EntryRoutes.GateRefuses(st, req) && !EntryRoutes.MissingField(req)
    requires r1 == EntryRoutes.Create(st, req) && r2 == EntryRoutes.Create(r1.st, req)
    ensures r1.result.Ok? && r2.result.Ok?
    ensures Wf(r2.st) && !EntryRoutes.GateRefuses(r2.st, req)
    ensures |r2.st.entries| == |st.entries| + 2
    ensures r2.result.value.rec.entryNumber == EntryNumber(|st.entries| + 1)
    ensures r1.result.value.id in r2.st.entries && r1.result.value.id != r2.result.value.id
    ensures r2.result.value.id in r2.st.entries && r2.st.entries[r2.result.value.id] == r2.result.value.rec
  {
    CreateSucceeds(st, req, r1);
    CreateSucceeds(r1.st, req, r2);
  }

  /** Two stored entries with one number break the index. */
  lemma SharedNumber(es: map<Id, Entry>, b: Id, c: Id)
    requires b != c && b in es && c in es && es[b].entryNumber == es[c].entryNumber
    ensures !EntryNumbersUnique(es)
  {
  }

  /** Deleting an entry removes exactly one stored entry and does not
      change the gate's answer. */
  lemma DeleteKeepsGate(st: State, id: Id, req: EntryRoutes.EntryRequest)
    requires Wf(st) && id in st.entries
    ensures var st' := EntryRoutes.Delete(st, id).st;
      && Wf(st') && |st'.entries| == |st.entries| - 1
      && EntryRoutes.GateRefuses(st', req) == EntryRoutes.GateRefuses(st, req)
  {
    var st' := EntryRoutes.Delete(st, id).st;
    assert st'.entries.Keys == st.entries.Keys - {id};
    GateSeesOnlyCustomers(st, st', req);
  }

  /** A completed entry can be settled again: a second settlement whose
      request carries every required value is accepted, charges the same
      customer, and counts a second trip, with two transactions pointing at
      the one entry. */
  lemma ResettleCompletedEntry(
    st: State, req: TransactionRoutes.SettleRequest, req2: TransactionRoutes.SettleRequest,
    r1: Response<Doc<Transaction>>, r2: Response<Doc<Transaction>>)
    requires Wf(st) && r1 == TransactionRoutes.Settle(st, req) && r1.result.Ok?
    requires req2.entryId == req.entryId && r2 == TransactionRoutes.Settle(r1.st, req2)
    ensures r1.st.entries[req.entryId].completed
    ensures r2.result != Err(NotFound)
    ensures TransactionRoutes.RequestComplete(req2) ==> r2.result.Ok?
    ensures r2.result.Ok? ==>
      var cid := r1.result.value.rec.customerId;
      && r2.result.value.rec.customerId == cid
      && r2.st.customers[cid].totalTransactions == r1.st.customers[cid].totalTransactions + 1
  {
    Ledger.SettleWf(st, req);
    var cid := r1.result.value.rec.customerId;
    var e1 := r1.st.entries[req.entryId];
    assert HasCustomer(r1.st, e1.truckNumber) by {
      assert cid in r1.st.customers && r1.st.customers[cid].truckNumber == TruckKey(e1.truckNumber);
    }
    ClosedSnapshot(st, req, r1);
    if r2.result.Ok? {
      Ledger.SettleReusesCustomer(r1.st, req2, r2);
      var cid2 := r2.result.value.rec.customerId;
      assert r1.st.customers[cid2].truckNumber == r1.st.customers[cid].truckNumber;
    }
  }

  /** The entry a settlement closes still carries every string a
      transaction copies from it. */
  lemma ClosedSnapshot(st: State, req: TransactionRoutes.SettleRequest, r1: Response<Doc<Transaction>>)
    requires r1 == TransactionRoutes.Settle(st, req) && r1.result.Ok?
    ensures req.entryId in r1.st.entries
    ensures TransactionRoutes.SnapshotComplete(r1.st.entries[req.entryId])
  {
    var e := st.entries[req.entryId];
    assert r1.st.entries[req.entryId] == Close(e, r1.result.value.rec.customerId);
  }

  /** Settling the same entry twice with complete requests stores two
      transactions for it. */
  lemma ResettleDuplicatesTransaction(
    st: State, req: TransactionRoutes.SettleRequest, req2: TransactionRoutes.SettleRequest,
    r1: Response<Doc<Transaction>>, r2: Response<Doc<Transaction>>)
    requires Wf(st) && r1 == TransactionRoutes.Settle(st, req) && r1.result.Ok?
    requires req2.entryId == req.entryId && r2 == TransactionRoutes.Settle(r1.st, req2)
    requires TransactionRoutes.RequestComplete(req2)
    ensures r2.result.Ok?
    ensures r1.result.value.id != r2.result.value.id
    ensures r1.result.value.id in r2.st.transactions && r2.result.value.id in r2.st.transactions
    ensures r2.st.transactions[r1.result.value.id].entryId == req.entryId
    ensures r2.st.transactions[r2.result.value.id].entryId == req.entryId
  {
    ResettleCompletedEntry(st, req, req2, r1, r2);
    var d1 := r1.result.value;
    var d2 := r2.result.value;
    Ledger.SettleSaves(st, req, r1);
    Ledger.SettleSaves(r1.st, req2, r2);
    StoredTwice(r1.st.transactions, d1.id, d1.rec, d2.id, d2.rec, r2.st.transactions);
  }

  /** A document stored before another is added is still there. */
  lemma StoredTwice<T>(m: map<Id, T>, a: Id, x: T, b: Id, y: T, m': map<Id, T>)
    requires a in m && m[a] == x && a != b && m' == m[b := y]
    ensures a in m' && m'[a] == x && b in m' && m'[b] == y
  {
  }

  /** Settling a pending entry and then deleting its transaction gives
      back the transactions as they were and the entry pending again; the
      entry stays linked to the customer the settlement charged. */
  lemma SettleThenDelete(
    st: State, req: TransactionRoutes.SettleRequest,
    r1: Response<Doc<Transaction>>, r2: Response<()>)
    requires Wf(st) && r1 == TransactionRoutes.Settle(st, req) && r1.result.Ok?
    requires !st.entries[req.entryId].completed
    requires r2 == TransactionRoutes.Delete(r1.st, r1.result.value.id)
    ensures r2.result.Ok?
    ensures r2.st.transactions == st.transactions
    ensures var cid := r1.result.value.rec.customerId;
      r2.st.entries == st.entries[req.entryId := st.entries[req.entryId].(customerId := Some(cid))]
  {
    var d := r1.result.value;
    var cid := d.rec.customerId;
    Ledger.SettleEffects(st, req, r1);
    RemoveAdded(st.transactions, d.id, d.rec);
    var e := st.entries[req.entryId];
    ReopenClose(e, cid);
    WriteTwice(st.entries, req.entryId, Close(e, cid), Reopen(Close(e, cid)));
  }

  /** Settling and then deleting the transaction returns the customer's
      trip count to its old value and sets its balance from its newest
      remaining transaction: 0 when it has none, in particular for a
      customer the settlement had created. */
  lemma SettleThenDeleteCustomer(
    st: State, req: TransactionRoutes.SettleRequest,
    r1: Response<Doc<Transaction>>, r2: Response<()>)
    requires Wf(st) && r1 == TransactionRoutes.Settle(st, req) && r1.result.Ok?
    requires r2 == TransactionRoutes.Delete(r1.st, r1.result.value.id)
    ensures r1.result.value.rec.customerId in r2.st.customers
    ensures var cid := r1.result.value.rec.customerId;
      cid in st.customers ==> r2.st.customers[cid].totalTransactions == st.customers[cid].totalTransactions
    ensures var cid := r1.result.value.rec.customerId;
      (forall k :: k in st.transactions ==> st.transactions[k].customerId != cid) ==> r2.st.customers[cid].balance == 0
    ensures var cid := r1.result.value.rec.customerId;
      forall k :: TransactionRoutes.NewestOther(st.transactions, r1.result.value.id, cid, k) ==>
        r2.st.customers[cid].balance == st.transactions[k].finalBalance
    ensures var cid := r1.result.value.rec.customerId;
      cid !in st.customers ==> r2.st.customers[cid].totalTransactions == 0 && r2.st.customers[cid].balance == 0
  {
    var d := r1.result.value;
    var cid := d.rec.customerId;
    Ledger.SettleEffects(st, req, r1);
    var b := TransactionRoutes.LatestBalance(r1.st, d.id, cid);
    var c2 := TransactionRoutes.Uncharge(r1.st.customers[cid], b, r1.st.clock);
    assert r2.st.customers == r1.st.customers[cid := c2];
    LatestBalanceIgnoresReversed(r1.st, st.transactions, d.id, d.rec, cid);
  }

  /** The balance a reversal restores does not depend on the transaction
      being reversed: it is determined by the others alone. */
  lemma LatestBalanceIgnoresReversed(st: State, txs: map<Id, Transaction>, id: Id, t: Transaction, cid: Id)
    requires Wf(st) && id !in txs && st.transactions == txs[id := t]
    ensures var b := TransactionRoutes.LatestBalance(st, id, cid);
      && ((forall k :: k in txs ==> txs[k].customerId != cid) ==> b == 0)
      && (forall k :: TransactionRoutes.NewestOther(txs, id, cid, k) ==> b == txs[k].finalBalance)
  {
    forall k | TransactionRoutes.NewestOther(txs, id, cid, k)
      ensures TransactionRoutes.NewestOther(st.transactions, id, cid, k)
    {
    }
  }

  /** Contact numbers are not unique: two trucks registered one after the
      other with the same contact number both succeed, and the directory
      then holds two customers sharing it. */
  lemma SharedContactReachable(
    st: State, name: string, truck1: string, truck2: string, contact: string,
    r1: Response<Doc<Customer>>, r2: Response<Doc<Customer>>)
    requires Wf(st) && !HasCustomer(st, truck1) && !HasCustomer(st, truck2)
    requires TruckKey(truck1) != TruckKey(truck2)
    requires Trim(name) != "" && Trim(contact) != "" && TruckKey(truck1) != "" && TruckKey(truck2) != ""
    requires r1 == CustomerRoutes.Upsert(st, name, truck1, contact)
    requires r2 == CustomerRoutes.Upsert(r1.st, name, truck2, contact)
    ensures r1.result.Ok? && r2.result.Ok?
    ensures r1.result.value.id != r2.result.value.id
    ensures r1.result.value.id in r2.st.customers && r2.result.value.id in r2.st.customers
    ensures r2.st.customers[r1.result.value.id].contactNumber == r2.st.customers[r2.result.value.id].contactNumber
    ensures Wf(r2.st)
  {
    UpsertRegisters(st, name, truck1, contact, r1);
    var a := r1.result.value.id;
    StillAbsent(st, r1.st, a, r1.result.value.rec, truck2);
    UpsertRegisters(r1.st, name, truck2, contact, r2);
    StoredTwice(r1.st.customers, a, r1.result.value.rec, r1.st.clock, r2.result.value.rec, r2.st.customers);
  }

  /** Upserting an unregistered truck registers it under the next id. */
  lemma UpsertRegisters(st: State, name: string, truck: string, contact: string, r: Response<Doc<Customer>>)
    requires Wf(st) && !HasCustomer(st, truck)
    requires Trim(name) != "" && Trim(contact) != "" && TruckKey(truck) != ""
    requires r == CustomerRoutes.Upsert(st, name, truck, contact)
    ensures r.result.Ok? && Wf(r.st)
    ensures r.result.value.id == st.clock && r.st.clock == st.clock + 1
    ensures r.st.customers == st.customers[st.clock := r.result.value.rec]
    ensures r.result.value.rec.truckNumber == TruckKey(truck) && r.result.value.rec.contactNumber == Trim(contact)
  {
    CustomerRoutes.UpsertWf(st, name, truck, contact);
  }

  /** Adding a customer for another truck leaves a truck unregistered. */
  lemma StillAbsent(st: State, st': State, a: Id, c: Customer, truck: string)
    requires !HasCustomer(st, truck) && c.truckNumber != TruckKey(truck)
    requires st'.customers == st.customers[a := c]
    ensures !HasCustomer(st', truck)
  {
    forall id | id in st'.customers ensures st'.customers[id].truckNumber != TruckKey(truck) {
      if id != a {
        assert id in st.customers;
      }
    }
  }
}
