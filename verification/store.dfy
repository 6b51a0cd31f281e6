/** The three document collections and the queries the routes run on them.

    Ids come from one creation counter, `clock`: a new document gets the
    current value as its id and as its `createdAt`, and the counter moves
    on. Hence the invariant `Wf` below makes id order and creation order
    the same, and "newest by createdAt" is "largest id". */
module Store {
  import opened Base
  import opened Text
  import opened CustomerModel
  import opened EntryModel
  import opened TransactionModel

  datatype State = State(
    customers: map<Id, Customer>,
    entries: map<Id, Entry>,
    transactions: map<Id, Transaction>,
    clock: nat)

  /** A stored document together with its id, as a route returns it. */
  datatype Doc<T> = Doc(id: Id, rec: T)

  /** The state after a request, and what the request answered. A failed
      request may still have written: the source saves documents one after
      another and does not roll back. */
  datatype Response<T> = Response(st: State, result: Result<T>)

  const Empty: State := State(map[], map[], map[], 0)

  /** No two customers share a truck number: the unique index the schema
      declares. Index building is switched off in the server, so the model
      proves the property rather than assuming the database enforces it. */
  predicate TrucksUnique(cs: map<Id, Customer>) {
    forall a, b :: a in cs && b in cs && cs[a].truckNumber == cs[b].truckNumber ==> a == b
  }

  /** No two entries share an entry number: the other declared unique
      index. The routes do not maintain it (see Lifecycle). */
  predicate EntryNumbersUnique(es: map<Id, Entry>) {
    forall a, b :: a in es && b in es && es[a].entryNumber == es[b].entryNumber ==> a == b
  }

  /** The invariant every route preserves. Every stored document passed
      its schema's validators. A transaction's customer id was
      issued before the transaction was saved, although the customer may
      since have gone. */
  predicate Wf(st: State) {
    && (forall id :: id in st.customers ==> id < st.clock && st.customers[id].createdAt == id)
    && (forall id :: id in st.entries ==> id < st.clock && st.entries[id].createdAt == id)
    && (forall id :: id in st.transactions ==> id < st.clock && st.transactions[id].createdAt == id)
    && (forall id :: id in st.transactions ==> st.transactions[id].customerId < st.clock)
    && (forall id :: id in st.transactions ==> TransactionModel.Valid(st.transactions[id]))
    && (forall id :: id in st.customers ==> CustomerModel.Valid(st.customers[id]))
    && (forall id :: id in st.entries ==> EntryModel.Valid(st.entries[id]))
    && (forall id :: id in st.customers ==> st.customers[id].totalTransactions >= 0)
    && TrucksUnique(st.customers)
  }

  lemma EmptyWf()
    ensures Wf(Empty)
  {
  }

  /** Storing a valid customer under an id issued before keeps the
      invariant, provided no other customer has its truck number. */
  lemma PutCustomerWf(st: State, id: Id, c: Customer)
    requires Wf(st)
    requires id < st.clock && c.createdAt == id
    requires CustomerModel.Valid(c) && c.totalTransactions >= 0
    requires forall k :: k in st.customers && k != id ==> st.customers[k].truckNumber != c.truckNumber
    ensures Wf(State(st.customers[id := c], st.entries, st.transactions, st.clock))
  {
  }

  /** Registering a valid new customer under the next id keeps the
      invariant, provided no customer has its truck number yet. */
  lemma AddCustomerWf(st: State, c: Customer)
    requires Wf(st)
    requires c.createdAt == st.clock
    requires CustomerModel.Valid(c) && c.totalTransactions >= 0
    requires forall k :: k in st.customers ==> st.customers[k].truckNumber != c.truckNumber
    ensures Wf(State(st.customers[st.clock := c], st.entries, st.transactions, st.clock + 1))
  {
  }

  /** Overwriting a stored entry with a valid one of the same creation time
      keeps the invariant. */
  lemma PutEntryWf(st: State, id: Id, e: Entry)
    requires Wf(st)
    requires id < st.clock && e.createdAt == id && EntryModel.Valid(e)
    ensures Wf(State(st.customers, st.entries[id := e], st.transactions, st.clock))
  {
  }

  /** Saving a valid transaction under the next id keeps the invariant. */
  lemma AddTransactionWf(st: State, t: Transaction)
    requires Wf(st)
    requires t.createdAt == st.clock && t.customerId < st.clock && TransactionModel.Valid(t)
    ensures Wf(State(st.customers, st.entries, st.transactions[st.clock := t], st.clock + 1))
  {
  }

  /** Overwriting a stored transaction with a valid one of the same
      creation time and an issued customer id keeps the invariant. */
  lemma PutTransactionWf(st: State, id: Id, t: Transaction)
    requires Wf(st)
    requires id < st.clock && t.createdAt == id && t.customerId < st.clock && TransactionModel.Valid(t)
    ensures Wf(State(st.customers, st.entries, st.transactions[id := t], st.clock))
  {
  }

  /** Removing a key just added gives back the map it was added to. */
  lemma RemoveAdded<T>(m: map<Id, T>, k: Id, v: T)
    requires k !in m
    ensures m[k := v] - {k} == m
  {
  }

  /** A second write to the same key replaces the first. */
  lemma WriteTwice<T>(m: map<Id, T>, k: Id, a: T, b: T)
    ensures m[k := a][k := b] == m[k := b]
  {
  }

  /** The first document (lowest id in [lo, hi)) that satisfies `p`. This
      models `findOne` without a sort. The database does not promise an
      order there; the model takes insertion order. Under `Wf` a customer
      lookup has at most one match, so the choice matters only for entries. */
  function FindFirst<T>(m: map<Id, T>, p: T -> bool, lo: nat, hi: nat): (r: Option<Id>)
    ensures r.Some? ==> lo <= r.value < hi && r.value in m && p(m[r.value])
    ensures r.Some? ==> forall k :: lo <= k < r.value && k in m ==> !p(m[k])
    ensures r.None? ==> forall k :: lo <= k < hi && k in m ==> !p(m[k])
    decreases hi - lo
  {
    if lo >= hi then None
    else if lo in m && p(m[lo]) then Some(lo)
    else FindFirst(m, p, lo + 1, hi)
  }

  /** The newest document (highest id below `hi`) that satisfies `p`:
      `findOne(...).sort({createdAt: -1})`. */
  function FindLast<T>(m: map<Id, T>, p: T -> bool, hi: nat): (r: Option<Id>)
    ensures r.Some? ==> r.value < hi && r.value in m && p(m[r.value])
    ensures r.Some? ==> forall k :: r.value < k < hi && k in m ==> !p(m[k])
    ensures r.None? ==> forall k :: k < hi && k in m ==> !p(m[k])
  {
    if hi == 0 then None
    else if hi - 1 in m && p(m[hi - 1]) then Some(hi - 1)
    else FindLast(m, p, hi - 1)
  }

  /** The ids below `hi` of the documents satisfying `p`, newest first:
      `find(...).sort({createdAt: -1})`. */
  function ListDesc<T>(m: map<Id, T>, p: T -> bool, hi: nat): (r: seq<Id>)
    ensures forall k :: k in r <==> k < hi && k in m && p(m[k])
    ensures forall i, j :: 0 <= i < j < |r| ==> r[i] > r[j]
  {
    if hi == 0 then []
    else
      var rest := ListDesc(m, p, hi - 1);
      assert forall j :: 0 <= j < |rest| ==> rest[j] in rest;
      if hi - 1 in m && p(m[hi - 1]) then [hi - 1] + rest else rest
  }

  /** The documents listed by `ids`, each with its id. */
  function Docs<T>(m: map<Id, T>, ids: seq<Id>): (r: seq<Doc<T>>)
    requires forall k :: k in ids ==> k in m
    ensures |r| == |ids|
    ensures forall i :: 0 <= i < |r| ==> r[i].id == ids[i] && r[i].rec == m[ids[i]]
    ensures forall k :: k in ids ==> Doc(k, m[k]) in r
    ensures forall d :: d in r ==> d.id in ids && d.rec == m[d.id]
  {
    var r := seq(|ids|, i requires 0 <= i < |ids| => Doc(ids[i], m[ids[i]]));
    assert forall k :: k in ids ==> exists i :: 0 <= i < |ids| && ids[i] == k && r[i] == Doc(k, m[k]);
    r
  }

  /** Some customer is registered under the normalised truck number. */
  predicate HasCustomer(st: State, truck: string) {
    exists id :: id in st.customers && st.customers[id].truckNumber == TruckKey(truck)
  }

  /** `Customer.findOne({truckNumber})`. Mongoose runs the schema's
      `uppercase` and `trim` setters on the query value as well, so the
      stored key is compared with the normalised query. */
  function FindCustomer(st: State, truck: string): (r: Option<Id>)
    ensures r.Some? ==> r.value in st.customers && st.customers[r.value].truckNumber == TruckKey(truck)
    ensures Wf(st) && r.Some? ==> forall id :: id in st.customers && st.customers[id].truckNumber == TruckKey(truck) ==> id == r.value
    ensures Wf(st) && r.None? ==> forall id :: id in st.customers ==> st.customers[id].truckNumber != TruckKey(truck)
    ensures Wf(st) ==> (r.Some? <==> HasCustomer(st, truck))
  {
    var r := FindFirst(st.customers, TruckIs(TruckKey(truck)), 0, st.clock);
    FindCustomerFacts(st, truck, r);
    r
  }

  /** The test `findOne` applies to each customer. */
  function TruckIs(key: string): Customer -> bool {
    (c: Customer) => c.truckNumber == key
  }

  /** Under the invariant the scan over ids below the counter sees every
      customer, and at most one carries the key. */
  lemma FindCustomerFacts(st: State, truck: string, r: Option<Id>)
    requires r == FindFirst(st.customers, TruckIs(TruckKey(truck)), 0, st.clock)
    ensures r.Some? ==> r.value in st.customers && st.customers[r.value].truckNumber == TruckKey(truck)
    ensures Wf(st) && r.Some? ==> forall id :: id in st.customers && st.customers[id].truckNumber == TruckKey(truck) ==> id == r.value
    ensures Wf(st) && r.None? ==> forall id :: id in st.customers ==> st.customers[id].truckNumber != TruckKey(truck)
    ensures Wf(st) ==> (r.Some? <==> HasCustomer(st, truck))
  {
    var key := TruckKey(truck);
    if Wf(st) {
      if r.None? {
        forall id | id in st.customers ensures st.customers[id].truckNumber != key {
          assert id < st.clock;
          assert !TruckIs(key)(st.customers[id]);
        }
      } else {
        assert TrucksUnique(st.customers);
      }
    }
  }
}
