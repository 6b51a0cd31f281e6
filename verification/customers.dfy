/** The customer directory routes: lookup and upsert keyed on the truck
    number alone, the profile update by id, and the listing. */
module CustomerRoutes {
  import opened Base
  import opened Text
  import opened CustomerModel
  import opened Store

  /** GET /customers/find: the customer whose truck number matches the
      query once upper-cased and trimmed, or none. */
  function Find(st: State, truck: string): (r: Option<Doc<Customer>>)
    ensures r.Some? ==> r.value.id in st.customers && st.customers[r.value.id] == r.value.rec
    ensures r.Some? ==> r.value.rec.truckNumber == TruckKey(truck)
    ensures Wf(st) ==> (r.None? <==> forall id :: id in st.customers ==> st.customers[id].truckNumber != TruckKey(truck))
  {
    match FindCustomer(st, truck)
    case Some(id) => Some(Doc(id, st.customers[id]))
    case None => None
  }

  /** GET /customers: every customer, newest first. */
  function List(st: State): (r: seq<Doc<Customer>>)
    ensures forall d :: d in r ==> d.id in st.customers && st.customers[d.id] == d.rec
    ensures Wf(st) ==> forall id :: id in st.customers ==> Doc(id, st.customers[id]) in r
    ensures Wf(st) ==> forall i, j :: 0 <= i < j < |r| ==> r[i].rec.createdAt > r[j].rec.createdAt
  {
    Docs(st.customers, ListDesc(st.customers, (c: Customer) => true, st.clock))
  }

  /** POST /customers: when a customer has the truck number, its name and
      contact are overwritten and its balance and trip count kept;
      otherwise a new customer with balance 0 and no trips is created.
      Either way exactly one customer carries the truck number afterwards. */
  function Upsert(st: State, name: string, truck: string, contact: string): (r: Response<Doc<Customer>>)
    ensures Wf(st) ==> (r.result.Err? <==> Trim(name) == "" || TruckKey(truck) == "" || Trim(contact) == "")
    ensures r.result.Err? ==> r.result.error == Invalid && r.st == st
    ensures r.result.Ok? ==> var d := r.result.value;
      && r.st.customers == st.customers[d.id := d.rec]
      && d.rec.truckNumber == TruckKey(truck)
      && d.rec.name == Trim(name) && d.rec.contactNumber == Trim(contact)
    ensures r.result.Ok? && Wf(st) ==> var d := r.result.value;
      forall id :: id in st.customers && st.customers[id].truckNumber == TruckKey(truck) ==>
        && d.id == id
        && d.rec.balance == st.customers[id].balance
        && d.rec.totalTransactions == st.customers[id].totalTransactions
    ensures r.result.Ok? ==> var d := r.result.value;
      d.id !in st.customers ==> d.rec.balance == 0 && d.rec.totalTransactions == 0
    ensures r.result.Ok? && Wf(st) && !HasCustomer(st, truck) ==>
      r.result.value.id == st.clock && r.st.clock == st.clock + 1
    ensures Wf(st) && HasCustomer(st, truck) ==> r.st.clock == st.clock
    ensures r.st.entries == st.entries && r.st.transactions == st.transactions
  {
    match FindCustomer(st, truck)
    case Some(id) =>
      var c := st.customers[id];
      (match Rename(c, name, contact, st.clock)
       case Err(e) => Response(st, Err(e))
       case Ok(c') =>
         Response(State(st.customers[id := c'], st.entries, st.transactions, st.clock), Ok(Doc(id, c'))))
    case None =>
      var id := st.clock;
      (match NewCustomer(name, truck, contact, id)
       case Err(e) => Response(st, Err(e))
       case Ok(c) =>
         Response(State(st.customers[id := c], st.entries, st.transactions, st.clock + 1), Ok(Doc(id, c))))
  }

  /** PUT /customers/:id: name and contact are always overwritten, the
      balance only when one is given; the truck number and the trip count
      are never touched. */
  function UpdateProfile(st: State, id: Id, name: Option<string>, contact: Option<string>, balance: Option<int>): (r: Response<Doc<Customer>>)
    ensures r.result.Err? ==> r.st == st
    ensures r.result.Err? ==> r.result.error in {NotFound, Invalid}
    ensures r.st.entries == st.entries && r.st.transactions == st.transactions && r.st.clock == st.clock
    ensures r.result == Err(NotFound) <==> id !in st.customers
    ensures r.result == Err(Invalid) <==>
      id in st.customers && (name.None? || contact.None? || Trim(name.value) == "" || Trim(contact.value) == "")
    ensures r.result.Ok? ==> var c := st.customers[id];
      && r.result.value.id == id
      && r.st.customers == st.customers[id := r.result.value.rec]
      && r.result.value.rec.name == Trim(name.value)
      && r.result.value.rec.contactNumber == Trim(contact.value)
      && r.result.value.rec.balance == balance.GetOr(c.balance)
      && r.result.value.rec.truckNumber == c.truckNumber
      && r.result.value.rec.totalTransactions == c.totalTransactions
      && r.result.value.rec.createdAt == c.createdAt
      && (CustomerModel.Valid(c) ==> CustomerModel.Valid(r.result.value.rec))
  {
    if id !in st.customers then Response(st, Err(NotFound))
    else if name.None? || contact.None? then Response(st, Err(Invalid))
    else
      match Rename(st.customers[id], name.value, contact.value, st.clock)
      case Err(e) => Response(st, Err(e))
      case Ok(c) =>
        var c' := SetBalance(c, balance.GetOr(c.balance));
        Response(State(st.customers[id := c'], st.entries, st.transactions, st.clock), Ok(Doc(id, c')))
  }

  /** Upserting never gives a second customer the same truck number, and
      keeps the rest of the invariant. */
  lemma UpsertWf(st: State, name: string, truck: string, contact: string)
    requires Wf(st)
    ensures Wf(Upsert(st, name, truck, contact).st)
  {
    var r := Upsert(st, name, truck, contact);
    if r.result.Ok? {
      var c := r.result.value.rec;
      match FindCustomer(st, truck)
      case Some(id) =>
        PutCustomerWf(st, id, c);
      case None =>
        AddCustomerWf(st, c);
    }
  }

  /** A profile update keeps the invariant: it changes neither truck
      numbers nor trip counts. */
  lemma UpdateProfileWf(st: State, id: Id, name: Option<string>, contact: Option<string>, balance: Option<int>)
    requires Wf(st)
    ensures Wf(UpdateProfile(st, id, name, contact, balance).st)
  {
    var r := UpdateProfile(st, id, name, contact, balance);
    if r.result.Ok? {
      var prev := st.customers[id];
      var c := r.result.value.rec;
      assert CustomerModel.Valid(prev) && prev.totalTransactions >= 0 && prev.createdAt == id;
      assert CustomerModel.Valid(c) && c.totalTransactions >= 0 && c.createdAt == id;
      assert c.truckNumber == prev.truckNumber;
      forall k | k in st.customers && k != id ensures st.customers[k].truckNumber != c.truckNumber {
        assert TrucksUnique(st.customers);
      }
      PutCustomerWf(st, id, c);
    }
  }
}
