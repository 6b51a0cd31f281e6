/** The Customer document: one per truck, holding the running balance and
    the trip count. */
module CustomerModel {
  import opened Base
  import opened Text

  datatype Customer = Customer(
    name: string,
    truckNumber: string,
    contactNumber: string,
    balance: int,
    totalTransactions: int,
    createdAt: nat,
    updatedAt: nat)

  /** The form in which a truck number is stored and matched: the schema's
      `uppercase` and `trim` setters. */
  function TruckKey(truck: string): (k: string)
    ensures NoLower(k) && Trimmed(k)
  {
    Trim(Upper(truck))
  }

  /** A stored truck number is its own key, so normalising twice changes
      nothing. */
  lemma TruckKeyIdempotent(truck: string)
    ensures TruckKey(TruckKey(truck)) == TruckKey(truck)
  {
    TruckKeyOfKey(TruckKey(truck));
  }

  /** Upper-casing before the lookup, as the routes do, selects the same key. */
  lemma TruckKeyOfUpper(truck: string)
    ensures TruckKey(Upper(truck)) == TruckKey(truck)
  {
    UpperIdempotent(truck);
  }

  /** Case and surrounding whitespace never distinguish two truck numbers. */
  lemma TruckKeyIgnoresPadding(a: string, truck: string, b: string)
    requires AllSpace(a) && AllSpace(b)
    ensures TruckKey(a + truck + b) == TruckKey(truck)
  {
    var u := Upper(a + truck + b);
    assert u == Upper(a) + Upper(truck) + Upper(b);
    assert AllSpace(Upper(a)) && AllSpace(Upper(b));
    TrimIgnoresPadding(Upper(a), Upper(truck), Upper(b));
  }

  /** What the schema guarantees of every saved customer: the setters have
      run on the three strings and the `required` validators passed (a
      required string must be non-empty). */
  predicate Valid(c: Customer) {
    && c.name != "" && Trimmed(c.name)
    && c.truckNumber != "" && Trimmed(c.truckNumber) && NoLower(c.truckNumber)
    && c.contactNumber != "" && Trimmed(c.contactNumber)
  }

  /** A trimmed string with no lower-case letter is already a truck key. */
  lemma TruckKeyOfKey(t: string)
    requires Trimmed(t) && NoLower(t)
    ensures TruckKey(t) == t
  {
    UpperOfNoLower(t);
    TrimOfTrimmed(t);
  }

  /** `new Customer({...}).save()`: setters applied, balance and trip count
      at their default 0, both timestamps `now`; fails when a required
      string is empty after trimming. */
  function NewCustomer(name: string, truck: string, contact: string, now: nat): (r: Result<Customer>)
    ensures r.Ok? <==> Trim(name) != "" && TruckKey(truck) != "" && Trim(contact) != ""
    ensures r.Ok? ==> Valid(r.value)
    ensures r.Ok? ==> r.value.truckNumber == TruckKey(truck)
    ensures r.Ok? ==> r.value.name == Trim(name) && r.value.contactNumber == Trim(contact)
    ensures r.Ok? ==> r.value.balance == 0 && r.value.totalTransactions == 0
    ensures r.Ok? ==> r.value.createdAt == now
  {
    var c := Customer(Trim(name), TruckKey(truck), Trim(contact), 0, 0, now, now);
    if c.name == "" || c.truckNumber == "" || c.contactNumber == "" then Err(Invalid) else Ok(c)
  }

  /** Assigning `name` and `contactNumber` on a loaded customer and saving
      it: the setters trim both, the required validators run on them, and
      nothing else but `updatedAt` changes. */
  function Rename(c: Customer, name: string, contact: string, now: nat): (r: Result<Customer>)
    ensures r.Ok? <==> Trim(name) != "" && Trim(contact) != ""
    ensures r.Ok? ==> r.value.name == Trim(name) && r.value.contactNumber == Trim(contact)
    ensures r.Ok? ==> r.value.truckNumber == c.truckNumber && r.value.balance == c.balance
    ensures r.Ok? ==> r.value.totalTransactions == c.totalTransactions && r.value.createdAt == c.createdAt
    ensures r.Ok? && Valid(c) ==> Valid(r.value)
  {
    if Trim(name) == "" || Trim(contact) == "" then Err(Invalid)
    else Ok(c.(name := Trim(name), contactNumber := Trim(contact), updatedAt := now))
  }

  /** Assigning `balance` on a loaded customer: nothing else changes. */
  function SetBalance(c: Customer, balance: int): (r: Customer)
    ensures r.balance == balance
    ensures r.name == c.name && r.truckNumber == c.truckNumber && r.contactNumber == c.contactNumber
    ensures r.totalTransactions == c.totalTransactions
    ensures r.createdAt == c.createdAt && r.updatedAt == c.updatedAt
    ensures Valid(r) == Valid(c)
  {
    c.(balance := balance)
  }
}
