/** Authority contacts: who is responsible for a (district, block, locality)
    triple. Each triple has at most one contact. */
module Authorities {
  import opened Common
  import opened Store
  import opened Reports

  datatype Authority = Authority(
    location: Place,
    email: string,
    authorityName: Option<string>,
    contactNumber: Option<string>)

  type Contacts = Table<Authority>

  /** The `trim` setters on the three location parts. */
  function NormalizePlace(p: Place): (q: Place)
    ensures IsTrimmed(q.district) && IsTrimmed(q.block) && IsTrimmed(q.locality)
    ensures Trim(q.district) == q.district && Trim(q.block) == q.block && Trim(q.locality) == q.locality
  {
    TrimSpec(p.district); TrimSpec(p.block); TrimSpec(p.locality);
    TrimIdempotent(p.district); TrimIdempotent(p.block); TrimIdempotent(p.locality);
    Place(Trim(p.district), Trim(p.block), Trim(p.locality))
  }

  /** The `trim` and `lowercase` setters on `email`. */
  function NormalizeEmail(email: string): string {
    Lower(Trim(email))
  }

  /** The required fields after the setters ran: all three location parts
      and the email. Name and contact number are optional. */
  predicate Valid(a: Authority) {
    a.location.district != "" && a.location.block != "" && a.location.locality != "" && a.email != ""
  }

  /** The compound unique index on the location triple. */
  ghost predicate UniqueLocations(contacts: Contacts) {
    forall i: Id, j: Id :: contacts.Has(i) && contacts.Has(j) && i != j ==>
      contacts.slots[i].value.location != contacts.slots[j].value.location
  }

  /** A contact as the setters store it. */
  function NewAuthority(location: Place, email: string, name: Option<string>, contact: Option<string>): (a: Authority)
    ensures a.location == NormalizePlace(location)
    ensures a.email == Lower(Trim(email))
    ensures name.Some? ==> a.authorityName == Some(Trim(name.value))
    ensures contact.Some? ==> a.contactNumber == Some(Trim(contact.value))
    ensures name.None? ==> a.authorityName.None?
    ensures contact.None? ==> a.contactNumber.None?
  {
    Authority(
      NormalizePlace(location),
      NormalizeEmail(email),
      match name case Some(n) => Some(Trim(n)) case None => None,
      match contact case Some(c) => Some(Trim(c)) case None => None)
  }

  /** Whether some stored contact already covers the triple. */
  function FindByLocation(contacts: Contacts, location: Place): (r: Option<Id>)
    ensures r.Some? ==> contacts.Has(r.value) && contacts.slots[r.value].value.location == location
    ensures r.None? ==> forall id: Id :: contacts.Has(id) ==> contacts.slots[id].value.location != location
  {
    FindFirst(contacts, (a: Authority) => a.location == location)
  }
}
