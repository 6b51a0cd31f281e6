/** The transaction routes: settlement of a pending entry, the edit that
    recomputes amounts, the reversal on delete, and the filtered listing. */
module TransactionRoutes {
  import opened Base
  import opened Text
  import opened CustomerModel
  import opened EntryModel
  import opened TransactionModel
  import opened Store

  /** The body of POST /transactions. The client computes `netWeight`,
      `totalAmount` and `finalBalance`; the route stores them as given. */
  datatype SettleRequest = SettleRequest(
    entryId: Id,
    loadedWeight: Option<int>,
    netWeight: Option<int>,
    ratePerKg: Option<int>,
    totalAmount: Option<int>,
    advancePaid: Option<int>,
    oldBalance: Option<int>,
    paidNow: Option<int>,
    finalBalance: Option<int>,
    shedLocation: Option<string>,
    exitDate: Option<int>,
    exitTime: string,
    paymentMethod: string)

  /** `paymentMethod || 'cash'`: an absent or empty method means cash. */
  function MethodOrCash(s: string): string {
    if s == "" then "cash" else s
  }

  /** The request carries every value the transaction schema requires,
      and a method its enum accepts. */
  predicate RequestComplete(req: SettleRequest) {
    && req.loadedWeight.Some? && req.netWeight.Some? && req.ratePerKg.Some?
    && req.totalAmount.Some? && req.finalBalance.Some? && req.exitDate.Some?
    && req.exitTime != ""
    && ParseMethod(MethodOrCash(req.paymentMethod)).Ok?
  }

  /** The entry carries every string the transaction copies and requires. */
  predicate SnapshotComplete(e: Entry) {
    e.entryNumber != "" && e.truckNumber != "" && e.contactNumber != "" && e.customerName != "" && e.entryTime != ""
  }

  /** The document the settle route saves: the entry's identity, truck,
      contact, name, empty weight and entry date/time copied at settlement
      time, the caller's amounts stored exactly as given, and the schema
      defaults (0 for the three payments, '' for the shed, cash). */
  function BuildTransaction(e: Entry, entryId: Id, customerId: Id, req: SettleRequest, now: nat): (r: Result<Transaction>)
    ensures r.Ok? <==> RequestComplete(req) && SnapshotComplete(e)
    ensures r.Err? ==> r.error == Invalid
    ensures r.Ok? ==> TransactionModel.Valid(r.value)
    ensures r.Ok? ==> var t := r.value;
      && t.entryNumber == e.entryNumber && t.entryId == entryId && t.customerId == customerId
      && t.truckNumber == e.truckNumber && t.contactNumber == e.contactNumber
      && t.customerName == e.customerName && t.emptyWeight == e.emptyWeight
      && t.entryDate == e.entryDate && t.entryTime == e.entryTime
    ensures r.Ok? ==> var t := r.value;
      && t.loadedWeight == req.loadedWeight.value && t.netWeight == req.netWeight.value
      && t.ratePerKg == req.ratePerKg.value && t.totalAmount == req.totalAmount.value
      && t.finalBalance == req.finalBalance.value
      && t.advancePaid == req.advancePaid.GetOr(0) && t.oldBalance == req.oldBalance.GetOr(0)
      && t.paidNow == req.paidNow.GetOr(0)
      && MethodName(t.paymentMethod) == MethodOrCash(req.paymentMethod)
      && t.shedLocation == req.shedLocation.GetOr("")
      && t.exitDate == req.exitDate.value && t.exitTime == req.exitTime
      && t.createdAt == now
  {
    if !RequestComplete(req) then Err(Invalid)
    else
      var t := Transaction(
        e.entryNumber, entryId, customerId, e.truckNumber, e.contactNumber, e.customerName,
        e.emptyWeight, req.loadedWeight.value, req.netWeight.value, req.ratePerKg.value,
        req.totalAmount.value, req.advancePaid.GetOr(0), req.oldBalance.GetOr(0),
        req.paidNow.GetOr(0), req.finalBalance.value,
        ParseMethod(MethodOrCash(req.paymentMethod)).value, req.shedLocation.GetOr(""),
        e.entryDate, e.entryTime, req.exitDate.value, req.exitTime, now);
      if TransactionModel.Valid(t) then Ok(t) else Err(Invalid)
  }

  /** How the settle route obtains its customer. */
  datatype Resolution = Existing(id: Id) | Created(customer: Customer)

  /** Find-or-create of the settle route: the customer registered under the
      entry's truck number is reused as it is; only when there is none is
      one created, from the entry's name and contact, with balance 0 and no
      trips. Creation fails, and with it the settlement, when the entry's
      name, truck or contact is blank after trimming. */
  function Resolve(st: State, e: Entry): (r: Result<Resolution>)
    ensures r.Err? ==> r.error == Invalid
    ensures r.Ok? && r.value.Existing? ==>
      r.value.id in st.customers && st.customers[r.value.id].truckNumber == TruckKey(e.truckNumber)
    ensures r.Ok? && r.value.Created? ==> var c := r.value.customer;
      && CustomerModel.Valid(c) && c.truckNumber == TruckKey(e.truckNumber)
      && c.name == Trim(e.customerName) && c.contactNumber == Trim(e.contactNumber)
      && c.balance == 0 && c.totalTransactions == 0 && c.createdAt == st.clock
    ensures Wf(st) ==> (r.Ok? && r.value.Existing? <==> HasCustomer(st, e.truckNumber))
    ensures Wf(st) && r.Ok? && r.value.Created? ==>
      forall k :: k in st.customers ==> st.customers[k].truckNumber != TruckKey(e.truckNumber)
    ensures Wf(st) ==> (r.Err? <==>
      !HasCustomer(st, e.truckNumber) && (Trim(e.customerName) == "" || TruckKey(e.truckNumber) == "" || Trim(e.contactNumber) == ""))
  {
    match FindCustomer(st, e.truckNumber)
    case Some(id) => Ok(Existing(id))
    case None =>
      match NewCustomer(e.customerName, e.truckNumber, e.contactNumber, st.clock)
      case Err(x) => Err(x)
      case Ok(c) => Ok(Created(c))
  }

  /** POST /transactions. An unknown entry is a NotFound with no write.
      Otherwise the customer is resolved, the transaction saved, the
      customer's balance overwritten with the transaction's finalBalance and
      its trip count raised by one, and the entry marked completed and
      linked to the customer. A completed entry is not refused: settling it
      again adds a second transaction and a second trip. */
  function Settle(st: State, req: SettleRequest): (r: Response<Doc<Transaction>>)
    ensures r.result == Err(NotFound) <==> req.entryId !in st.entries
    ensures r.result == Err(NotFound) ==> r.st == st
    ensures r.result.Err? ==> r.result.error in {NotFound, Invalid}
    ensures req.entryId in st.entries && r.result.Err? ==> var res := Resolve(st, st.entries[req.entryId]);
      && r.st.entries == st.entries && r.st.transactions == st.transactions
      && if res.Ok? && res.value.Created?
         then r.st.customers == st.customers[st.clock := res.value.customer] && r.st.clock == st.clock + 1
         else r.st == st
    ensures req.entryId in st.entries ==> var e := st.entries[req.entryId];
      (r.result.Ok? <==> RequestComplete(req) && SnapshotComplete(e) && Resolve(st, e).Ok?)
    ensures r.result.Ok? ==> var d := r.result.value; var e := st.entries[req.entryId];
      && BuildTransaction(e, req.entryId, d.rec.customerId, req, d.id) == Ok(d.rec)
      && d.rec.customerId in r.st.customers
      && r.st.customers[d.rec.customerId].truckNumber == TruckKey(e.truckNumber)
      && r.st.customers[d.rec.customerId].balance == d.rec.finalBalance
    ensures r.result.Ok? ==> var d := r.result.value; var e := st.entries[req.entryId];
      && r.st.transactions == st.transactions[d.id := d.rec]
      && r.st.entries == st.entries[req.entryId := Close(e, d.rec.customerId)]
      && r.st.clock == d.id + 1 && d.id >= st.clock
  {
    if req.entryId !in st.entries then Response(st, Err(NotFound))
    else
      var e := st.entries[req.entryId];
      var res := Resolve(st, e);
      if res.Err? then Response(st, Err(res.error))
      else Record(st, req, e, res.value)
  }

  /** The customer's record after a settlement: its balance becomes the
      transaction's final balance and it has made one more trip; name,
      truck, contact and creation time stay. */
  function Charge(c: Customer, finalBalance: int, now: nat): (r: Customer)
    ensures r.balance == finalBalance && r.totalTransactions == c.totalTransactions + 1 && r.updatedAt == now
    ensures r.name == c.name && r.truckNumber == c.truckNumber && r.contactNumber == c.contactNumber
    ensures r.createdAt == c.createdAt
  {
    c.(balance := finalBalance, totalTransactions := c.totalTransactions + 1, updatedAt := now)
  }

  /** The settle route once its customer is resolved: the customer is
      registered if new, then the transaction is built and saved, the
      customer charged and the entry closed. */
  function Record(st: State, req: SettleRequest, e: Entry, res: Resolution): (r: Response<Doc<Transaction>>)
    requires res.Existing? ==> res.id in st.customers
    ensures r.result.Ok? <==> RequestComplete(req) && SnapshotComplete(e)
    ensures r.result.Err? ==> r.result.error == Invalid
    ensures r.result.Err? && res.Existing? ==> r.st == st
    ensures r.result.Err? && res.Created? ==>
      && r.st.customers == st.customers[st.clock := res.customer] && r.st.clock == st.clock + 1
      && r.st.entries == st.entries && r.st.transactions == st.transactions
    ensures r.result.Ok? ==> var d := r.result.value; var cid := d.rec.customerId;
      && BuildTransaction(e, req.entryId, cid, req, d.id) == Ok(d.rec)
      && r.st.transactions == st.transactions[d.id := d.rec]
      && r.st.entries == st.entries[req.entryId := Close(e, cid)]
      && r.st.clock == d.id + 1 && d.id >= st.clock
    ensures r.result.Ok? && res.Existing? ==> var d := r.result.value; var cid := d.rec.customerId;
      && cid == res.id && d.id == st.clock
      && r.st.customers == st.customers[cid := Charge(st.customers[cid], d.rec.finalBalance, st.clock)]
    ensures r.result.Ok? && res.Created? ==> var d := r.result.value; var cid := d.rec.customerId;
      && cid == st.clock && d.id == st.clock + 1
      && r.st.customers == st.customers[cid := Charge(res.customer, d.rec.finalBalance, st.clock)]
  {
    var cid := if res.Existing? then res.id else st.clock;
    var tid := if res.Existing? then st.clock else st.clock + 1;
    match BuildTransaction(e, req.entryId, cid, req, tid)
    case Err(x) =>
      if res.Existing? then Response(st, Err(x))
      else Response(State(st.customers[st.clock := res.customer], st.entries, st.transactions, st.clock + 1), Err(x))
    case Ok(t) =>
      var c := if res.Existing? then st.customers[cid] else res.customer;
      var c' := Charge(c, t.finalBalance, st.clock);
      var e' := Close(e, cid);
      Response(
        State(st.customers[cid := c'], st.entries[req.entryId := e'], st.transactions[tid := t], tid + 1),
        Ok(Doc(tid, t)))
  }

  /** The arithmetic the client performs before posting a settlement: net
      weight is loaded minus empty, the total is net weight times rate, and
      the final balance is what was owed plus the total less both payments.
      The route itself never checks it. */
  predicate ClientArithmetic(e: Entry, req: SettleRequest)
    requires req.loadedWeight.Some? && req.netWeight.Some? && req.ratePerKg.Some?
    requires req.totalAmount.Some? && req.finalBalance.Some?
  {
    && req.netWeight.value == req.loadedWeight.value - e.emptyWeight
    && req.totalAmount.value == req.netWeight.value * req.ratePerKg.value
    && req.finalBalance.value
       == (req.totalAmount.value + req.oldBalance.GetOr(0)) - (req.advancePaid.GetOr(0) + req.paidNow.GetOr(0))
  }

  /** A transaction whose derived amounts agree with its inputs. */
  predicate Consistent(t: Transaction) {
    && t.netWeight == t.loadedWeight - t.emptyWeight
    && t.totalAmount == t.netWeight * t.ratePerKg
    && t.finalBalance == (t.totalAmount + t.oldBalance) - (t.advancePaid + t.paidNow)
  }

  /** The body of PUT /transactions/:id. A weight or rate of 0 counts as
      absent, as in the source's truthiness tests; a `paidNow` of 0 is
      present. */
  datatype EditRequest = EditRequest(
    loadedWeight: Option<int>,
    ratePerKg: Option<int>,
    paidNow: Option<int>,
    shedLocation: Option<string>,
    paymentMethod: string)

  /** A number the source's `if (x)` treats as given. */
  predicate Supplied(x: Option<int>) {
    x.Some? && x.value != 0
  }

  /** The edit's recomputation, before the payment method: a new loaded
      weight resets the net weight from the stored empty weight, a new
      weight or rate resets the total, and only a given `paidNow` resets
      the final balance. Nothing else in the transaction changes. */
  function Recompute(t: Transaction, req: EditRequest): (r: Transaction)
    ensures Supplied(req.loadedWeight) ==>
      r.loadedWeight == req.loadedWeight.value && r.netWeight == req.loadedWeight.value - t.emptyWeight
    ensures !Supplied(req.loadedWeight) ==> r.loadedWeight == t.loadedWeight && r.netWeight == t.netWeight
    ensures r.ratePerKg == if Supplied(req.ratePerKg) then req.ratePerKg.value else t.ratePerKg
    ensures Supplied(req.loadedWeight) || Supplied(req.ratePerKg) ==> r.totalAmount == r.netWeight * r.ratePerKg
    ensures !Supplied(req.loadedWeight) && !Supplied(req.ratePerKg) ==> r.totalAmount == t.totalAmount
    ensures req.paidNow.Some? ==>
      r.paidNow == req.paidNow.value
      && r.finalBalance == (r.totalAmount + t.oldBalance) - (t.advancePaid + req.paidNow.value)
    ensures req.paidNow.None? ==> r.paidNow == t.paidNow && r.finalBalance == t.finalBalance
    ensures r.shedLocation == req.shedLocation.GetOr(t.shedLocation)
    ensures TransactionModel.Valid(r) == TransactionModel.Valid(t)
    ensures r == t.(loadedWeight := r.loadedWeight, netWeight := r.netWeight, ratePerKg := r.ratePerKg,
                    totalAmount := r.totalAmount, paidNow := r.paidNow, finalBalance := r.finalBalance,
                    shedLocation := r.shedLocation)
  {
    var t1 := if Supplied(req.loadedWeight)
              then t.(loadedWeight := req.loadedWeight.value, netWeight := req.loadedWeight.value - t.emptyWeight)
              else t;
    var t2 := if Supplied(req.ratePerKg) then t1.(ratePerKg := req.ratePerKg.value) else t1;
    var t3 := if Supplied(req.loadedWeight) || Supplied(req.ratePerKg)
              then t2.(totalAmount := t2.netWeight * t2.ratePerKg) else t2;
    var t4 := if req.paidNow.Some?
              then t3.(paidNow := req.paidNow.value,
                       finalBalance := (t3.totalAmount + t3.oldBalance) - (t3.advancePaid + req.paidNow.value))
              else t3;
    if req.shedLocation.Some? then t4.(shedLocation := req.shedLocation.value) else t4
  }

  /** The customer's record after an edit that supplies `paidNow`: the
      balance overwritten, the trip count and everything else kept. */
  function Rebalance(c: Customer, balance: int, now: nat): (r: Customer)
    ensures r.balance == balance && r.updatedAt == now
    ensures r.name == c.name && r.truckNumber == c.truckNumber && r.contactNumber == c.contactNumber
    ensures r.totalTransactions == c.totalTransactions && r.createdAt == c.createdAt
  {
    c.(balance := balance, updatedAt := now)
  }

  /** PUT /transactions/:id. When `paidNow` is given the recomputed final
      balance is written to the customer first, if the customer still
      exists; then a non-empty payment method replaces the stored one and
      the transaction is saved. An unknown method fails the save but not
      the customer write before it. */
  function Edit(st: State, id: Id, req: EditRequest): (r: Response<Doc<Transaction>>)
    ensures r.result == Err(NotFound) <==> id !in st.transactions
    ensures r.result == Err(NotFound) ==> r.st == st
    ensures r.result == Err(Invalid) <==>
      id in st.transactions && req.paymentMethod != "" && ParseMethod(req.paymentMethod).Err?
    ensures r.result.Err? ==> r.result.error in {NotFound, Invalid}
    ensures r.result.Err? ==> r.st.transactions == st.transactions
    ensures r.result.Ok? ==> var d := r.result.value;
      && d.id == id
      && r.st.transactions == st.transactions[id := d.rec]
      && d.rec.(paymentMethod := st.transactions[id].paymentMethod) == Recompute(st.transactions[id], req)
      && (req.paymentMethod != "" ==> MethodName(d.rec.paymentMethod) == req.paymentMethod)
      && (req.paymentMethod == "" ==> d.rec.paymentMethod == st.transactions[id].paymentMethod)
    ensures id in st.transactions ==> var t := st.transactions[id];
      if req.paidNow.Some? && t.customerId in st.customers then
        r.st.customers == st.customers[t.customerId := Rebalance(st.customers[t.customerId], Recompute(t, req).finalBalance, st.clock)]
      else r.st.customers == st.customers
    ensures r.st.entries == st.entries && r.st.clock == st.clock
  {
    if id !in st.transactions then Response(st, Err(NotFound))
    else
      var t := st.transactions[id];
      var t1 := Recompute(t, req);
      var cid := t.customerId;
      var st1 := if req.paidNow.Some? && cid in st.customers
                 then State(st.customers[cid := Rebalance(st.customers[cid], t1.finalBalance, st.clock)], st.entries, st.transactions, st.clock)
                 else st;
      if req.paymentMethod == "" then
        Response(State(st1.customers, st1.entries, st.transactions[id := t1], st1.clock), Ok(Doc(id, t1)))
      else
        match ParseMethod(req.paymentMethod)
        case Err(x) => Response(st1, Err(x))
        case Ok(m) =>
          var t2 := t1.(paymentMethod := m);
          Response(State(st1.customers, st1.entries, st.transactions[id := t2], st1.clock), Ok(Doc(id, t2)))
  }

  /** `k` is the newest transaction of customer `cid` other than `id`. */
  predicate NewestOther(txs: map<Id, Transaction>, id: Id, cid: Id, k: Id) {
    && k in txs && k != id && txs[k].customerId == cid
    && forall j :: j in txs && j != id && txs[j].customerId == cid ==> txs[j].createdAt <= txs[k].createdAt
  }

  /** The balance the reversal restores: the final balance of the newest
      surviving transaction of the customer, or 0 when none survives. */
  function LatestBalance(st: State, id: Id, cid: Id): (b: int)
    ensures Wf(st) && (forall k :: k in st.transactions && k != id ==> st.transactions[k].customerId != cid) ==> b == 0
    ensures Wf(st) ==> forall k :: NewestOther(st.transactions, id, cid, k) ==> b == st.transactions[k].finalBalance
  {
    var others := st.transactions - {id};
    match FindLast(others, (t: Transaction) => t.customerId == cid, st.clock)
    case None =>
      assert Wf(st) ==> forall j :: !NewestOther(st.transactions, id, cid, j) by {
        if Wf(st) {
          forall j: nat | j in st.transactions && j != id ensures st.transactions[j].customerId != cid {
            assert j in others && j < st.clock;
          }
        }
      }
      0
    case Some(k) =>
      assert Wf(st) ==> forall j :: NewestOther(st.transactions, id, cid, j) ==> j == k by {
        if Wf(st) {
          forall j: nat | NewestOther(st.transactions, id, cid, j) ensures j == k {
            assert k in st.transactions && st.transactions[k].customerId == cid;
            assert j < st.clock && j in others;
          }
        }
      }
      st.transactions[k].finalBalance
  }

  /** The customer's record after a reversal: one trip fewer, never below
      0, and the given balance; name, truck, contact and creation time
      stay. */
  function Uncharge(c: Customer, balance: int, now: nat): (r: Customer)
    ensures r.totalTransactions == Max(0, c.totalTransactions - 1)
    ensures r.totalTransactions >= 0 && (c.totalTransactions >= 1 ==> r.totalTransactions == c.totalTransactions - 1)
    ensures r.balance == balance && r.updatedAt == now
    ensures r.name == c.name && r.truckNumber == c.truckNumber && r.contactNumber == c.contactNumber
    ensures r.createdAt == c.createdAt
  {
    c.(totalTransactions := Max(0, c.totalTransactions - 1), balance := balance, updatedAt := now)
  }

  /** DELETE /transactions/:id. The linked entry is reopened if it still
      exists; the customer, if it still exists, loses one trip (never going
      below 0) and gets back the balance of its newest other transaction;
      then the transaction is removed. */
  function Delete(st: State, id: Id): (r: Response<()>)
    ensures r.result == Err(NotFound) <==> id !in st.transactions
    ensures r.result.Ok? <==> id in st.transactions
    ensures r.result.Err? ==> r.st == st
    ensures r.result.Ok? ==> r.st.transactions == st.transactions - {id} && r.st.clock == st.clock
    ensures r.result.Ok? ==> var eid := st.transactions[id].entryId;
      if eid in st.entries then r.st.entries == st.entries[eid := Reopen(st.entries[eid])]
      else r.st.entries == st.entries
    ensures r.result.Ok? ==> var cid := st.transactions[id].customerId;
      if cid in st.customers then
        var c := st.customers[cid];
        r.st.customers == st.customers[cid := Uncharge(c, LatestBalance(st, id, cid), st.clock)]
      else r.st.customers == st.customers
  {
    if id !in st.transactions then Response(st, Err(NotFound))
    else
      var t := st.transactions[id];
      var entries := if t.entryId in st.entries
                     then st.entries[t.entryId := Reopen(st.entries[t.entryId])]
                     else st.entries;
      var customers := if t.customerId in st.customers
                       then var c := st.customers[t.customerId];
                            st.customers[t.customerId := Uncharge(c, LatestBalance(st, id, t.customerId), st.clock)]
                       else st.customers;
      Response(State(customers, entries, st.transactions - {id}, st.clock), Ok(()))
  }

  /** The query of GET /transactions: an exit-date range, applied only when
      both ends are given, and a customer. */
  datatype Filter = Filter(startDate: Option<int>, endDate: Option<int>, customerId: Option<Id>)

  predicate Matches(f: Filter, t: Transaction) {
    && (f.startDate.Some? && f.endDate.Some? ==> f.startDate.value <= t.exitDate <= f.endDate.value)
    && (f.customerId.Some? ==> t.customerId == f.customerId.value)
  }

  predicate ByExitDesc(s: seq<Doc<Transaction>>) {
    forall i, j :: 0 <= i < j < |s| ==> s[i].rec.exitDate >= s[j].rec.exitDate
  }

  /** Inserts `d` in front of the first document that exited no later. */
  function InsertByExit(d: Doc<Transaction>, s: seq<Doc<Transaction>>): (r: seq<Doc<Transaction>>)
    requires ByExitDesc(s)
    ensures ByExitDesc(r)
    ensures multiset(r) == multiset(s) + multiset{d}
  {
    if s == [] || s[0].rec.exitDate <= d.rec.exitDate then [d] + s
    else
      var rest := InsertByExit(d, s[1..]);
      ExitBound(d, s, rest);
      ConsByExit(s[0], rest);
      assert s == [s[0]] + s[1..];
      [s[0]] + rest
  }

  /** Every document of an insertion into the tail exited no later than the
      head, when `d` exited earlier than the head. */
  lemma ExitBound(d: Doc<Transaction>, s: seq<Doc<Transaction>>, rest: seq<Doc<Transaction>>)
    requires |s| > 0 && ByExitDesc(s) && s[0].rec.exitDate > d.rec.exitDate
    requires multiset(rest) == multiset(s[1..]) + multiset{d}
    ensures forall j :: 0 <= j < |rest| ==> rest[j].rec.exitDate <= s[0].rec.exitDate
  {
    forall j | 0 <= j < |rest| ensures rest[j].rec.exitDate <= s[0].rec.exitDate {
      assert rest[j] in multiset(rest);
      if rest[j] != d {
        assert rest[j] in multiset(s[1..]);
        var k :| 0 <= k < |s[1..]| && s[1..][k] == rest[j];
        assert s[k + 1] == rest[j];
      }
    }
  }

  /** A document that exited no earlier than all of a sorted sequence can
      go in front of it. */
  lemma ConsByExit(x: Doc<Transaction>, rest: seq<Doc<Transaction>>)
    requires ByExitDesc(rest)
    requires forall j :: 0 <= j < |rest| ==> rest[j].rec.exitDate <= x.rec.exitDate
    ensures ByExitDesc([x] + rest)
  {
    var r := [x] + rest;
    forall i, j | 0 <= i < j < |r| ensures r[i].rec.exitDate >= r[j].rec.exitDate {
      assert r[j] == rest[j - 1];
      if i > 0 {
        assert r[i] == rest[i - 1];
      }
    }
  }

  /** `.sort({exitDate: -1})`: a permutation in descending exit date. The
      order among equal exit dates is not fixed by the source. */
  function SortByExit(s: seq<Doc<Transaction>>): (r: seq<Doc<Transaction>>)
    ensures ByExitDesc(r)
    ensures multiset(r) == multiset(s)
  {
    if s == [] then []
    else
      assert s == [s[0]] + s[1..];
      InsertByExit(s[0], SortByExit(s[1..]))
  }

  /** GET /transactions: every transaction matching the filter, each once,
      by exit date, newest first. */
  function List(st: State, f: Filter): (r: seq<Doc<Transaction>>)
    ensures ByExitDesc(r)
    ensures forall d :: d in r ==> d.id in st.transactions && st.transactions[d.id] == d.rec && Matches(f, d.rec)
    ensures Wf(st) ==> forall id :: id in st.transactions && Matches(f, st.transactions[id]) ==>
      Doc(id, st.transactions[id]) in r
    ensures forall i, j :: 0 <= i < j < |r| ==> r[i].id != r[j].id
  {
    var ids := ListDesc(st.transactions, (t: Transaction) => Matches(f, t), st.clock);
    var docs := Docs(st.transactions, ids);
    var r := SortByExit(docs);
    SameMembers(docs, r);
    DistinctIdsPermuted(docs, r);
    r
  }

  /** Two arrangements of the same documents have the same members. */
  lemma SameMembers(a: seq<Doc<Transaction>>, b: seq<Doc<Transaction>>)
    requires multiset(a) == multiset(b)
    ensures forall d :: d in a <==> d in b
  {
    forall d ensures d in a <==> d in b {
      assert d in a <==> d in multiset(a);
      assert d in b <==> d in multiset(b);
    }
  }

  /** Rearranging documents with distinct ids keeps their ids distinct. */
  lemma DistinctIdsPermuted(a: seq<Doc<Transaction>>, b: seq<Doc<Transaction>>)
    requires multiset(a) == multiset(b)
    requires forall i, j :: 0 <= i < j < |a| ==> a[i].id != a[j].id
    ensures forall i, j :: 0 <= i < j < |b| ==> b[i].id != b[j].id
  {
    forall i, j | 0 <= i < j < |b| ensures b[i].id != b[j].id {
      if b[i].id == b[j].id {
        assert b[i] in multiset(a) && b[j] in multiset(a);
        var x :| 0 <= x < |a| && a[x] == b[i];
        var y :| 0 <= y < |a| && a[y] == b[j];
        CountTwice(b, i, j);
        CountOnce(a, x);
      }
    }
  }

  /** In a sequence with distinct ids every element occurs once. */
  lemma {:induction false} CountOnce(a: seq<Doc<Transaction>>, x: nat)
    requires forall i, j :: 0 <= i < j < |a| ==> a[i].id != a[j].id
    requires x < |a|
    ensures multiset(a)[a[x]] == 1
  {
    assert a == a[..x] + [a[x]] + a[x+1..];
    assert a[x] !in a[..x];
    assert a[x] !in a[x+1..];
  }

  /** An element at two positions occurs at least twice. */
  lemma CountTwice(b: seq<Doc<Transaction>>, i: nat, j: nat)
    requires i < j < |b| && b[i] == b[j]
    ensures multiset(b)[b[i]] >= 2
  {
    assert b == b[..i] + [b[i]] + b[i+1..j] + [b[j]] + b[j+1..];
  }
}
