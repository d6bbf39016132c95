/** The contacts page: a fixed list of contacts shown in two groups, the emergency
    contacts and the others. Nothing on the page changes the list. */
module ContactsPage {
  import opened ListOps

  /** A contact; `isEmergency` is optional in the source, so it may be absent. */
  datatype Contact = Contact(id: int, name: string, relationship: string, phone: string, isEmergency: Option<bool>)

  /** `c.isEmergency` is truthy only when it is present and true. */
  predicate IsEmergency(c: Contact)
  {
    c.isEmergency == Some(true)
  }

  /** `!c.isEmergency` holds when the field is false or absent. */
  predicate IsRegular(c: Contact)
  {
    c.isEmergency != Some(true)
  }

  /** An optional flag is absent, false or true. */
  lemma OptionalFlag(c: Contact)
    ensures IsRegular(c) <==> c.isEmergency == None || c.isEmergency == Some(false)
  {
    match c.isEmergency
    case None =>
    case Some(b) =>
      if b {
        assert c.isEmergency == Some(true);
      } else {
        assert c.isEmergency == Some(false);
      }
  }

  /** The constant contact list. */
  function Contacts(): seq<Contact>
  {
    [ Contact(1, "Dr. Sarah Johnson", "Doctor", "(555) 123-4567", Some(true)),
      Contact(2, "John Smith", "Son", "(555) 234-5678", Some(true)),
      Contact(3, "Mary Smith", "Daughter", "(555) 345-6789", Some(true)),
      Contact(4, "Home Care", "Caregiver", "(555) 456-7890", Some(false)),
      Contact(5, "Robert Williams", "Neighbor", "(555) 567-8901", Some(false)),
      Contact(6, "Local Pharmacy", "Pharmacy", "(555) 678-9012", Some(false)) ]
  }

  /** `emergencyContacts`: exactly the contacts whose `isEmergency` is true, in list order. */
  function EmergencyContacts(contacts: seq<Contact>): (r: seq<Contact>)
    ensures forall c :: c in r <==> c in contacts && c.isEmergency == Some(true)
  {
    forall c ensures c in Filter(contacts, IsEmergency) <==> c in contacts && IsEmergency(c) {
      FilterMembership(contacts, IsEmergency, c);
    }
    Filter(contacts, IsEmergency)
  }

  /** `regularContacts`: exactly the contacts whose `isEmergency` is false or absent, in
      list order. */
  function RegularContacts(contacts: seq<Contact>): (r: seq<Contact>)
    ensures forall c :: c in r <==> c in contacts && (c.isEmergency == None || c.isEmergency == Some(false))
  {
    forall c ensures c in Filter(contacts, IsRegular) <==>
                       c in contacts && (c.isEmergency == None || c.isEmergency == Some(false)) {
      FilterMembership(contacts, IsRegular, c);
      OptionalFlag(c);
    }
    Filter(contacts, IsRegular)
  }

  /** Both groups keep list order: the group of a concatenation is the group of the first
      part followed by that of the second. */
  lemma GroupsInOrder(s: seq<Contact>, t: seq<Contact>)
    ensures EmergencyContacts(s + t) == EmergencyContacts(s) + EmergencyContacts(t)
    ensures RegularContacts(s + t) == RegularContacts(s) + RegularContacts(t)
  {
    FilterConcat(s, t, IsEmergency);
    FilterConcat(s, t, IsRegular);
  }

  /** The two groups split the list: every contact is shown exactly once, so the group
      sizes add up to the number of contacts. */
  lemma GroupsPartition(contacts: seq<Contact>)
    ensures |EmergencyContacts(contacts)| + |RegularContacts(contacts)| == |contacts|
    ensures multiset(EmergencyContacts(contacts)) + multiset(RegularContacts(contacts)) == multiset(contacts)
    ensures forall c :: c in contacts ==> (c in EmergencyContacts(contacts) <==> c !in RegularContacts(contacts))
  {
    FilterPartition(contacts, IsEmergency, IsRegular);
    forall c | c in contacts
      ensures c in EmergencyContacts(contacts) <==> c !in RegularContacts(contacts)
    {
      OptionalFlag(c);
    }
  }

  /** A list with its emergency contacts first splits at the boundary. */
  lemma SplitAt(cs: seq<Contact>, k: nat)
    requires k <= |cs|
    requires forall i :: 0 <= i < k ==> IsEmergency(cs[i])
    requires forall i :: k <= i < |cs| ==> IsRegular(cs[i])
    ensures EmergencyContacts(cs) == cs[..k] && RegularContacts(cs) == cs[k..]
  {
    FilterPrefix(cs, IsEmergency, k);
    var first, rest := cs[..k], cs[k..];
    assert cs == first + rest;
    assert forall i :: 0 <= i < |rest| ==> IsRegular(rest[i]) by {
      forall i | 0 <= i < |rest| ensures rest[i] == cs[k + i] { }
    }
    FilterConcat(first, rest, IsRegular);
    FilterAllOrNone(first, IsRegular);
    FilterAllOrNone(rest, IsRegular);
  }

  /** Contacts 1-3 are the emergency group and contacts 4-6 the others. */
  lemma ContactsScenario()
    ensures EmergencyContacts(Contacts()) == Contacts()[..3]
    ensures RegularContacts(Contacts()) == Contacts()[3..]
  {
    var cs := Contacts();
    assert forall i :: 0 <= i < 3 ==> IsEmergency(cs[i]);
    assert forall i :: 3 <= i < |cs| ==> IsRegular(cs[i]);
    SplitAt(cs, 3);
  }
}
