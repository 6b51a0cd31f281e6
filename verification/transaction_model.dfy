/** The Transaction document: a settled exit, with a snapshot of its
    entry's fields and the caller's weights and money. */
module TransactionModel {
  import opened Base

  /** The schema's enum for `paymentMethod`. */
  datatype PaymentMethod = Cash | Bank

  function MethodName(m: PaymentMethod): string {
    match m
    case Cash => "cash"
    case Bank => "bank"
  }

  /** The enum validator: only the two listed strings are accepted. */
  function ParseMethod(s: string): (r: Result<PaymentMethod>)
    ensures r.Ok? <==> s == "cash" || s == "bank"
    ensures r.Ok? ==> MethodName(r.value) == s
    ensures r.Err? ==> r.error == Invalid
  {
    if s == "cash" then Ok(Cash) else if s == "bank" then Ok(Bank) else Err(Invalid)
  }

  /** Every payment method survives being written out and validated back. */
  lemma MethodRoundTrip(m: PaymentMethod)
    ensures ParseMethod(MethodName(m)) == Ok(m)
  {
  }

  datatype Transaction = Transaction(
    entryNumber: string,
    entryId: Id,
    customerId: Id,
    truckNumber: string,
    contactNumber: string,
    customerName: string,
    emptyWeight: int,
    loadedWeight: int,
    netWeight: int,
    ratePerKg: int,
    totalAmount: int,
    advancePaid: int,
    oldBalance: int,
    paidNow: int,
    finalBalance: int,
    paymentMethod: PaymentMethod,
    shedLocation: string,
    entryDate: int,
    entryTime: string,
    exitDate: int,
    exitTime: string,
    createdAt: nat)

  /** The `required` string validators of the schema. The references and
      numbers are always present in the model; the enum is enforced by the
      type. */
  predicate Valid(t: Transaction) {
    && t.entryNumber != ""
    && t.truckNumber != ""
    && t.contactNumber != ""
    && t.customerName != ""
    && t.entryTime != ""
    && t.exitTime != ""
  }
}
