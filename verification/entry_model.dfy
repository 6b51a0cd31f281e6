/** The Entry document: a truck that has been weighed empty and waits for
    its exit, and the entry-number format. */
module EntryModel {
  import opened Base
  import opened Text

  datatype Entry = Entry(
    entryNumber: string,
    truckNumber: string,
    contactNumber: string,
    customerName: string,
    emptyWeight: int,
    advancePayment: int,
    entryDate: int,
    entryTime: string,
    completed: bool,
    customerId: Option<Id>,
    createdAt: nat)

  /** The schema's guarantees for a saved entry: the required strings are
      non-empty and the truck number went through the `uppercase` setter.
      Unlike a customer's, an entry's truck number is not trimmed. */
  predicate Valid(e: Entry) {
    && e.entryNumber != ""
    && e.truckNumber != "" && NoLower(e.truckNumber)
    && e.contactNumber != ""
    && e.customerName != ""
    && e.entryTime != ""
  }

  /** The entry number issued when `count` entries are stored: count + 1 in
      decimal, left-padded with '0' to four characters. */
  function EntryNumber(count: nat): (n: string)
    ensures AllDigits(n) && |n| >= 4
  {
    var d := NatToDecimal(count + 1);
    ZeroPadding(d, 4);
    PadStart(d, 4, '0')
  }

  /** Reading an entry number back as a decimal gives count + 1. */
  lemma EntryNumberRoundTrip(count: nat)
    ensures ParseDecimal(EntryNumber(count)) == count + 1
  {
    ZeroPadding(NatToDecimal(count + 1), 4);
    ParseNatToDecimal(count + 1);
  }

  /** Different counts give different entry numbers. */
  lemma EntryNumberInjective(a: nat, b: nat)
    ensures EntryNumber(a) == EntryNumber(b) <==> a == b
  {
    EntryNumberRoundTrip(a);
    EntryNumberRoundTrip(b);
  }

  /** Below 10000 the number is exactly four characters; from 10000 on it is
      the plain decimal, never cut to four. */
  lemma EntryNumberWidth(count: nat)
    ensures count + 1 < 10000 ==> |EntryNumber(count)| == 4
    ensures count + 1 >= 10000 ==> EntryNumber(count) == NatToDecimal(count + 1) && |EntryNumber(count)| >= 5
  {
    DecimalLength(count + 1, 4);
    assert Pow10(4) == 10000;
    var d := NatToDecimal(count + 1);
    if |d| >= 4 {
      assert EntryNumber(count) == d;
    }
  }

  /** The entry after its settlement: completed and linked to the customer
      charged; every other field as it was. */
  function Close(e: Entry, customerId: Id): (r: Entry)
    ensures r.completed && r.customerId == Some(customerId)
    ensures r.entryNumber == e.entryNumber && r.truckNumber == e.truckNumber && r.createdAt == e.createdAt
    ensures r.contactNumber == e.contactNumber && r.customerName == e.customerName
    ensures r.emptyWeight == e.emptyWeight && r.advancePayment == e.advancePayment
    ensures r.entryDate == e.entryDate && r.entryTime == e.entryTime
    ensures Valid(r) == Valid(e)
  {
    e.(completed := true, customerId := Some(customerId))
  }

  /** The entry after its transaction is reversed: pending again, the
      customer link kept. */
  function Reopen(e: Entry): (r: Entry)
    ensures !r.completed && r.customerId == e.customerId
    ensures r.entryNumber == e.entryNumber && r.truckNumber == e.truckNumber && r.createdAt == e.createdAt
    ensures r.contactNumber == e.contactNumber && r.customerName == e.customerName
    ensures r.emptyWeight == e.emptyWeight && r.advancePayment == e.advancePayment
    ensures r.entryDate == e.entryDate && r.entryTime == e.entryTime
    ensures Valid(r) == Valid(e)
  {
    e.(completed := false)
  }

  /** Reopening a closed entry gives back the pending entry it was, now
      linked to the customer. */
  lemma ReopenClose(e: Entry, customerId: Id)
    requires !e.completed
    ensures Reopen(Close(e, customerId)) == e.(customerId := Some(customerId))
  {
  }

  /** `new Entry({...}).save()` for the fields the create route passes:
      the truck number is upper-cased, the entry starts pending, and the
      required validators decide success. */
  function NewEntry(
    entryNumber: string, truck: string, contact: string, name: string,
    emptyWeight: int, advance: int, entryDate: int, entryTime: string,
    customerId: Option<Id>, now: nat): (r: Result<Entry>)
    ensures r.Ok? <==> entryNumber != "" && truck != "" && contact != "" && name != "" && entryTime != ""
    ensures r.Ok? ==> Valid(r.value) && !r.value.completed && r.value.truckNumber == Upper(truck)
    ensures r.Ok? ==> r.value.entryNumber == entryNumber && r.value.customerId == customerId
    ensures r.Ok? ==> r.value.contactNumber == contact && r.value.customerName == name
    ensures r.Ok? ==> r.value.emptyWeight == emptyWeight && r.value.advancePayment == advance
    ensures r.Ok? ==> r.value.entryDate == entryDate && r.value.entryTime == entryTime
    ensures r.Ok? ==> r.value.createdAt == now
  {
    var e := Entry(entryNumber, Upper(truck), contact, name, emptyWeight, advance,
                   entryDate, entryTime, false, customerId, now);
    if Valid(e) then Ok(e) else Err(Invalid)
  }
}
