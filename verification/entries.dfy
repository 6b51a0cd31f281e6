/** The entry routes: creation behind the customer-type gate, numbering,
    the pending list and lookup, and deletion. */
module EntryRoutes {
  import opened Base
  import opened Text
  import opened CustomerModel
  import opened EntryModel
  import opened Store

  /** The body of POST /entries. `customerType` is "new", "existing", or
      anything else (including absent), which skips the gate. */
  datatype EntryRequest = EntryRequest(
    truckNumber: string,
    contactNumber: string,
    customerName: string,
    emptyWeight: int,
    advancePayment: Option<int>,
    entryDate: int,
    entryTime: string,
    customerType: string)

  function IsPending(e: Entry): bool {
    !e.completed
  }

  /** GET /entries: all entries, or those whose `completed` flag equals
      (query == "true") when the query is given; newest first. */
  function List(st: State, completed: Option<string>): (r: seq<Doc<Entry>>)
    ensures forall d :: d in r ==> d.id in st.entries && st.entries[d.id] == d.rec
    ensures forall d :: d in r ==> completed.Some? ==> d.rec.completed == (completed.value == "true")
    ensures Wf(st) ==> forall id :: id in st.entries ==>
      (completed.None? || st.entries[id].completed == (completed.value == "true")) ==> Doc(id, st.entries[id]) in r
    ensures Wf(st) ==> forall i, j :: 0 <= i < j < |r| ==> r[i].rec.createdAt > r[j].rec.createdAt
  {
    var p := (e: Entry) => completed.None? || e.completed == (completed.value == "true");
    Docs(st.entries, ListDesc(st.entries, p, st.clock))
  }

  /** GET /entries/pending: exactly the entries not yet completed, newest
      first. */
  function Pending(st: State): (r: seq<Doc<Entry>>)
    ensures forall d :: d in r ==> d.id in st.entries && st.entries[d.id] == d.rec && !d.rec.completed
    ensures Wf(st) ==> forall id :: id in st.entries && !st.entries[id].completed ==> Doc(id, st.entries[id]) in r
    ensures Wf(st) ==> forall i, j :: 0 <= i < j < |r| ==> r[i].rec.createdAt > r[j].rec.createdAt
  {
    Docs(st.entries, ListDesc(st.entries, IsPending, st.clock))
  }

  /** GET /entries/find: a pending entry whose truck number equals the
      upper-cased query; completed entries are never returned. When several
      match, the source leaves the choice to the database; the model takes
      the oldest. */
  function FindPending(st: State, truck: string): (r: Option<Doc<Entry>>)
    ensures r.Some? ==> var d := r.value;
      && d.id in st.entries && st.entries[d.id] == d.rec
      && !d.rec.completed && d.rec.truckNumber == Upper(truck)
    ensures r.Some? ==> forall id :: id in st.entries && id < r.value.id ==>
      st.entries[id].completed || st.entries[id].truckNumber != Upper(truck)
    ensures Wf(st) && r.None? ==> forall id :: id in st.entries ==>
      st.entries[id].completed || st.entries[id].truckNumber != Upper(truck)
  {
    var key := Upper(truck);
    var found := FindFirst(st.entries, (e: Entry) => !e.completed && e.truckNumber == key, 0, st.clock);
    match found
    case Some(id) => Some(Doc(id, st.entries[id]))
    case None => None
  }

  /** GET /entries/next-number: the number of stored entries plus one,
      zero-padded to four digits. */
  function NextNumber(st: State): (n: string)
    ensures AllDigits(n) && |n| >= 4
    ensures ParseDecimal(n) == |st.entries| + 1
    ensures |st.entries| + 1 < 10000 ==> |n| == 4
    ensures |st.entries| + 1 >= 10000 ==> n == NatToDecimal(|st.entries| + 1)
  {
    EntryNumberRoundTrip(|st.entries|);
    EntryNumberWidth(|st.entries|);
    EntryNumber(|st.entries|)
  }

  /** The customer-type gate: "new" is refused when the truck already has a
      customer, "existing" when it has none, anything else passes. */
  predicate GateRefuses(st: State, req: EntryRequest) {
    || (req.customerType == "new" && HasCustomer(st, req.truckNumber))
    || (req.customerType == "existing" && !HasCustomer(st, req.truckNumber))
  }

  /** A required string of the entry schema is empty. */
  predicate MissingField(req: EntryRequest) {
    req.truckNumber == "" || req.contactNumber == "" || req.customerName == "" || req.entryTime == ""
  }

  /** POST /entries. The gate looks only at customers: "new" is refused
      when the truck already has a customer, "existing" when it has none.
      Pending entries are never consulted. A passing request stores a
      pending entry numbered from the current entry count. */
  function Create(st: State, req: EntryRequest): (r: Response<Doc<Entry>>)
    ensures r.result.Err? ==> r.st == st && r.result.error != NotFound
    ensures r.st.customers == st.customers && r.st.transactions == st.transactions
    ensures Wf(st) ==> (r.result == Err(Conflict) <==> GateRefuses(st, req))
    ensures Wf(st) ==> (r.result == Err(Invalid) <==> !GateRefuses(st, req) && MissingField(req))
    ensures r.result.Ok? ==> var d := r.result.value;
      && d.id == st.clock
      && r.st.entries == st.entries[d.id := d.rec] && r.st.clock == st.clock + 1
      && d.rec.entryNumber == EntryNumber(|st.entries|)
      && d.rec.truckNumber == Upper(req.truckNumber)
      && !d.rec.completed
      && d.rec.advancePayment == req.advancePayment.GetOr(0)
      && d.rec.contactNumber == req.contactNumber && d.rec.customerName == req.customerName
      && d.rec.emptyWeight == req.emptyWeight
      && d.rec.entryDate == req.entryDate && d.rec.entryTime == req.entryTime
    ensures r.result.Ok? ==> var cid := r.result.value.rec.customerId;
      && (cid.Some? ==> cid.value in st.customers && st.customers[cid.value].truckNumber == TruckKey(req.truckNumber))
      && (Wf(st) && cid.None? ==> !HasCustomer(st, req.truckNumber))
    ensures Wf(st) ==> Wf(r.st)
  {
    var existing := FindCustomer(st, req.truckNumber);
    if req.customerType == "new" && existing.Some? then Response(st, Err(Conflict))
    else if req.customerType == "existing" && existing.None? then Response(st, Err(Conflict))
    else
      var number := EntryNumber(|st.entries|);
      match NewEntry(number, req.truckNumber, req.contactNumber, req.customerName,
                     req.emptyWeight, req.advancePayment.GetOr(0), req.entryDate, req.entryTime,
                     existing, st.clock)
      case Err(e) => Response(st, Err(e))
      case Ok(e) =>
        Response(State(st.customers, st.entries[st.clock := e], st.transactions, st.clock + 1), Ok(Doc(st.clock, e)))
  }

  /** DELETE /entries/:id: removes the entry whatever its state, and
      answers success even when there was nothing to remove. */
  function Delete(st: State, id: Id): (r: Response<()>)
    ensures r.result.Ok?
    ensures id !in r.st.entries
    ensures r.st.entries == st.entries - {id}
    ensures r.st.customers == st.customers && r.st.transactions == st.transactions && r.st.clock == st.clock
    ensures Wf(st) ==> Wf(r.st)
  {
    Response(State(st.customers, st.entries - {id}, st.transactions, st.clock), Ok(()))
  }
}
