/**
 * The shared, mutable contact list (`sampleContacts`) and the handlers of the
 * add, edit and detail screens and of the list screen's dialogs that change it.
 */
module Store {
  import opened Wrappers
  import opened Lists
  import opened Validation
  import opened Contacts

  class ContactStore {
    /** The contacts in display order. */
    var contacts: seq<Contact>

    /** Ids are pairwise distinct and every stored contact passed both validators. */
    ghost predicate Valid()
      reads this
    {
      IdsDistinct(contacts) && AllAccepted(contacts)
    }

    /** The list as the app starts with it. */
    constructor ()
      ensures contacts == SampleContacts
      ensures Valid()
    {
      contacts := SampleContacts;
      SampleContactsWellFormed();
    }

    /**
     * Saving the add form (the add screen and the list screen's add dialog):
     * both validators run; when both accept, a contact with the next id and the
     * text exactly as typed is appended; otherwise the list is left alone.
     */
    method SaveContact(name: string, phone: string) returns (nameError: Option<string>, phoneError: Option<string>)
      modifies this
      ensures nameError == ValidateName(name) && phoneError == ValidatePhoneNumber(phone)
      ensures nameError.None? && phoneError.None? ==>
                contacts == old(contacts) + [Contact(NextId(old(contacts)), name, phone)]
      ensures nameError.Some? || phoneError.Some? ==> contacts == old(contacts)
      ensures old(AllAccepted(contacts)) ==> AllAccepted(contacts)
      ensures old(Valid()) && old(MaxIdOrZero(contacts)) < IntMax ==> Valid()
    {
      nameError := ValidateName(name);
      phoneError := ValidatePhoneNumber(phone);
      if nameError.None? && phoneError.None? {
        var newContact := Contact(AddInt32(MaxIdOrZero(contacts), 1), name, phone);
        if IdsDistinct(contacts) && MaxIdOrZero(contacts) < IntMax {
          AppendKeepsIdsDistinct(contacts, name, phone);
        }
        contacts := contacts + [newContact];
      }
    }

    /**
     * Saving the edit form for `contact` (the edit screen and the list screen's
     * edit dialog): both validators run; when both accept, the first contact
     * with `contact`'s id is replaced, in place, by a copy of `contact` carrying
     * the new name and phone. No contact with that id: nothing is written.
     */
    method SaveChanges(contact: Contact, name: string, phone: string)
      returns (nameError: Option<string>, phoneError: Option<string>)
      modifies this
      ensures nameError == ValidateName(name) && phoneError == ValidatePhoneNumber(phone)
      ensures var k := IndexOfFirst(old(contacts), contact.id);
              if nameError.None? && phoneError.None? && k != -1
              then contacts == old(contacts)[k := Contact(contact.id, name, phone)]
              else contacts == old(contacts)
      ensures |contacts| == |old(contacts)|
      ensures forall i :: 0 <= i < |contacts| ==> contacts[i].id == old(contacts)[i].id
      ensures old(Valid()) ==> Valid()
    {
      nameError := ValidateName(name);
      phoneError := ValidatePhoneNumber(phone);
      if nameError.None? && phoneError.None? {
        var updated := contact.(name := name, phoneNumber := phone);
        var index := IndexOfFirst(contacts, contact.id);
        if index != -1 {
          ReplaceKeepsIds(contacts, index, updated);
          contacts := contacts[index := updated];
        }
      }
    }

    /**
     * Deleting a contact (the detail screen and the list screen's detail dialog):
     * every contact with that id goes; the others stay, in their order.
     */
    method DeleteContact(id: int)
      modifies this
      ensures contacts == RemoveId(old(contacts), id)
      ensures forall i :: 0 <= i < |contacts| ==> contacts[i].id != id
      ensures IsSubsequence(contacts, old(contacts))
      ensures (forall i :: 0 <= i < |old(contacts)| ==> old(contacts)[i].id != id) ==> contacts == old(contacts)
      ensures old(IdsDistinct(contacts)) && (exists i :: 0 <= i < |old(contacts)| && old(contacts)[i].id == id) ==>
                |contacts| == |old(contacts)| - 1
      ensures old(Valid()) ==> Valid()
    {
      var before := contacts;
      contacts := RemoveId(contacts, id);
      assert forall i :: 0 <= i < |contacts| ==> contacts[i] in contacts;
      RemoveIdIsSubsequence(before, id);
      if forall i :: 0 <= i < |before| ==> before[i].id != id {
        RemoveAbsentId(before, id);
      }
      if IdsDistinct(before) {
        SubsequenceKeepsIdsDistinct(contacts, before);
        if exists i :: 0 <= i < |before| && before[i].id == id {
          RemovePresentId(before, id);
        }
      }
      if AllAccepted(before) {
        RemoveIdKeepsAccepted(before, id);
      }
    }

    /**
     * The edit screen opened on `contactId`: it looks the contact up with `find`;
     * when there is none it goes back without touching the list, otherwise its
     * save button runs SaveChanges on the contact found.
     */
    method EditScreenSave(contactId: int, name: string, phone: string)
      returns (found: bool, nameError: Option<string>, phoneError: Option<string>)
      modifies this
      ensures found <==> exists i :: 0 <= i < |old(contacts)| && old(contacts)[i].id == contactId
      ensures !found ==> contacts == old(contacts) && nameError.None? && phoneError.None?
      ensures found ==> nameError == ValidateName(name) && phoneError == ValidatePhoneNumber(phone)
      ensures var k := IndexOfFirst(old(contacts), contactId);
              if found && nameError.None? && phoneError.None?
              then contacts == old(contacts)[k := Contact(contactId, name, phone)]
              else contacts == old(contacts)
      ensures old(Valid()) ==> Valid()
    {
      var contact := FindById(contacts, contactId);
      if contact.None? {
        found, nameError, phoneError := false, None, None;
        return;
      }
      found := true;
      nameError, phoneError := SaveChanges(contact.value, name, phone);
    }

    /**
     * The detail screen opened on `contactId`: it looks the contact up with
     * `find`; when there is none it shows "not found" and leaves the list alone,
     * otherwise its delete button removes every contact with the found id.
     */
    method DetailDelete(contactId: int) returns (found: bool)
      modifies this
      ensures found <==> exists i :: 0 <= i < |old(contacts)| && old(contacts)[i].id == contactId
      ensures !found ==> contacts == old(contacts)
      ensures found ==> contacts == RemoveId(old(contacts), contactId)
      ensures found && old(IdsDistinct(contacts)) ==> |contacts| == |old(contacts)| - 1
      ensures old(Valid()) ==> Valid()
    {
      var contact := FindById(contacts, contactId);
      if contact.None? {
        found := false;
        return;
      }
      found := true;
      DeleteContact(contact.value.id);
    }
  }
}
