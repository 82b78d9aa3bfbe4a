/**
 * The contact record, the sample list the app starts with, and the list
 * functions the screens use: `find` and `indexOfFirst` by id, `maxOfOrNull`
 * over the ids, and RemoveId, the list that `removeIf` by id leaves behind
 * (the in-place removal is Store.ContactStore.DeleteContact).
 */
module Contacts {
  import opened Wrappers
  import opened Text
  import opened Lists
  import opened Validation

  /** Kotlin's `Int`: 32-bit two's complement. */
  const IntMin: int := -0x8000_0000
  const IntMax: int := 0x7FFF_FFFF
  type Int32 = x: int | IntMin <= x <= IntMax

  /** Kotlin's `Int` addition, which wraps around modulo 2^32. */
  function AddInt32(a: Int32, b: Int32): (r: Int32)
    ensures (r - (a + b)) % 0x1_0000_0000 == 0
    ensures IntMin <= a + b <= IntMax ==> r == a + b
  {
    (a + b - IntMin) % 0x1_0000_0000 + IntMin
  }

  datatype Contact = Contact(id: Int32, name: string, phoneNumber: string)

  /** The list the app starts with. */
  const SampleContacts: seq<Contact> := [
    Contact(1, "Nguyen Van A", "0123456789"),
    Contact(2, "Le Thi B", "0987654321"),
    Contact(3, "Tran Van C", "0121987654"),
    Contact(4, "Pham Thi D", "0456789123"),
    Contact(5, "Hoang Van E", "0789123456")
  ]

  /** No two contacts share an id. */
  ghost predicate IdsDistinct(cs: seq<Contact>) {
    forall i, j :: 0 <= i < j < |cs| ==> cs[i].id != cs[j].id
  }

  /** Every stored contact passes both validators. */
  ghost predicate AllAccepted(cs: seq<Contact>) {
    forall i :: 0 <= i < |cs| ==> Accepted(cs[i])
  }

  ghost predicate Accepted(c: Contact) {
    ValidateName(c.name).None? && ValidatePhoneNumber(c.phoneNumber).None?
  }

  /** `cs.find { it.id == id }`: the first contact with that id, or none. */
  function FindById(cs: seq<Contact>, id: int): (r: Option<Contact>)
    ensures r.None? <==> forall i :: 0 <= i < |cs| ==> cs[i].id != id
    ensures r.Some? ==> r.value.id == id
    ensures r.Some? ==> exists i :: 0 <= i < |cs| && cs[i] == r.value && forall j :: 0 <= j < i ==> cs[j].id != id
  {
    if cs == [] then None
    else if cs[0].id == id then Some(cs[0])
    else
      var r := FindById(cs[1..], id);
      assert r.Some? ==> exists i :: 0 <= i < |cs[1..]| && cs[1..][i] == r.value && forall j :: 0 <= j < i ==> cs[1..][j].id != id;
      r
  }

  /** `cs.indexOfFirst { it.id == id }`: the first position holding that id, or -1. */
  function IndexOfFirst(cs: seq<Contact>, id: int): (r: int)
    ensures -1 <= r < |cs|
    ensures r == -1 <==> forall i :: 0 <= i < |cs| ==> cs[i].id != id
    ensures r >= 0 ==> cs[r].id == id && forall j :: 0 <= j < r ==> cs[j].id != id
  {
    if cs == [] then -1
    else if cs[0].id == id then 0
    else
      var k := IndexOfFirst(cs[1..], id);
      if k == -1 then -1 else k + 1
  }

  /** `find` and `indexOfFirst` agree: the contact found is the one at the index found. */
  lemma FindAtIndexOfFirst(cs: seq<Contact>, id: int)
    ensures var k := IndexOfFirst(cs, id);
            FindById(cs, id) == if k == -1 then None else Some(cs[k])
  {
  }

  /** With distinct ids, looking up a stored contact's id yields that very contact. */
  lemma FindUnique(cs: seq<Contact>, i: int)
    requires IdsDistinct(cs) && 0 <= i < |cs|
    ensures FindById(cs, cs[i].id) == Some(cs[i])
  {
  }

  /** `cs.maxOfOrNull { it.id } ?: 0`: the largest id, or 0 for an empty list. */
  function MaxIdOrZero(cs: seq<Contact>): (m: Int32)
    ensures cs == [] ==> m == 0
    ensures forall i :: 0 <= i < |cs| ==> cs[i].id <= m
    ensures cs != [] ==> exists i :: 0 <= i < |cs| && cs[i].id == m
  {
    if cs == [] then 0
    else if |cs| == 1 then cs[0].id
    else
      var rest := MaxIdOrZero(cs[1..]);
      assert exists i :: 0 <= i < |cs[1..]| && cs[1..][i].id == rest;
      if cs[0].id >= rest then cs[0].id else rest
  }

  /** The id a new contact gets: `(maxOfOrNull ?: 0) + 1`, in Kotlin `Int` arithmetic. */
  function NextId(cs: seq<Contact>): (r: Int32)
    ensures cs == [] ==> r == 1
    ensures MaxIdOrZero(cs) < IntMax ==>
              r == MaxIdOrZero(cs) + 1 && forall i :: 0 <= i < |cs| ==> cs[i].id < r
    ensures MaxIdOrZero(cs) == IntMax ==> r == IntMin
  {
    AddInt32(MaxIdOrZero(cs), 1)
  }

  /** Appending a contact with the next id keeps ids distinct, while the largest id is below `Int.MAX_VALUE`. */
  lemma AppendKeepsIdsDistinct(cs: seq<Contact>, name: string, phone: string)
    requires IdsDistinct(cs) && MaxIdOrZero(cs) < IntMax
    ensures IdsDistinct(cs + [Contact(NextId(cs), name, phone)])
  {
  }

  /**
   * Once the largest id is `Int.MAX_VALUE`, the next id wraps around to
   * `Int.MIN_VALUE`, and a list that already holds that id gets a duplicate.
   */
  lemma NextIdWrapsExample()
    ensures var cs := [Contact(IntMin, "A", "123456789"), Contact(IntMax, "B", "987654321")];
            IdsDistinct(cs) && !IdsDistinct(cs + [Contact(NextId(cs), "C", "555555555")])
  {
    var cs := [Contact(IntMin, "A", "123456789"), Contact(IntMax, "B", "987654321")];
    assert MaxIdOrZero(cs) == IntMax;
    var cs' := cs + [Contact(NextId(cs), "C", "555555555")];
    assert cs'[0].id == cs'[2].id;
  }

  /** Replacing the contact at a position by one with the same id keeps the list of ids. */
  lemma ReplaceKeepsIds(cs: seq<Contact>, k: int, c: Contact)
    requires 0 <= k < |cs| && c.id == cs[k].id
    ensures |cs[k := c]| == |cs|
    ensures forall i :: 0 <= i < |cs| ==> cs[k := c][i].id == cs[i].id
    ensures IdsDistinct(cs) ==> IdsDistinct(cs[k := c])
  {
  }

  /** What `cs.removeIf { it.id == id }` leaves: every contact with another id, in order. */
  function RemoveId(cs: seq<Contact>, id: int): (r: seq<Contact>)
    ensures forall c :: c in r ==> c in cs && c.id != id
    ensures forall c :: c in cs && c.id != id ==> c in r
    ensures forall c :: multiset(r)[c] == if c.id != id then multiset(cs)[c] else 0
  {
    FilterMultiset(cs, (c: Contact) => c.id != id);
    Filter(cs, (c: Contact) => c.id != id)
  }

  /** Removing keeps the remaining contacts in their original relative order. */
  lemma RemoveIdIsSubsequence(cs: seq<Contact>, id: int)
    ensures IsSubsequence(RemoveId(cs, id), cs)
  {
    FilterIsSubsequence(cs, (c: Contact) => c.id != id);
  }

  /** Removing an id that is not present leaves the list as it was. */
  lemma RemoveAbsentId(cs: seq<Contact>, id: int)
    requires forall i :: 0 <= i < |cs| ==> cs[i].id != id
    ensures RemoveId(cs, id) == cs
  {
    FilterKeepsAll(cs, (c: Contact) => c.id != id);
  }

  /** With distinct ids, removing a present id shrinks the list by exactly one. */
  lemma {:induction false} RemovePresentId(cs: seq<Contact>, id: int)
    requires IdsDistinct(cs)
    requires exists i :: 0 <= i < |cs| && cs[i].id == id
    ensures |RemoveId(cs, id)| == |cs| - 1
  {
    assert cs == [cs[0]] + cs[1..];
    if cs[0].id == id {
      RemoveAbsentId(cs[1..], id);
      assert RemoveId(cs, id) == RemoveId(cs[1..], id);
    } else {
      var i :| 0 <= i < |cs| && cs[i].id == id;
      assert cs[1..][i - 1].id == id;
      RemovePresentId(cs[1..], id);
      assert RemoveId(cs, id) == [cs[0]] + RemoveId(cs[1..], id);
    }
  }

  /** Whatever is left after a removal is a part of the list, so distinct ids stay distinct. */
  lemma SubsequenceKeepsIdsDistinct(a: seq<Contact>, b: seq<Contact>)
    requires IsSubsequence(a, b) && IdsDistinct(b)
    ensures IdsDistinct(a)
  {
  }

  /** Whatever is left after a removal passed the validators when it was stored. */
  lemma RemoveIdKeepsAccepted(cs: seq<Contact>, id: int)
    requires AllAccepted(cs)
    ensures AllAccepted(RemoveId(cs, id))
  {
  }

  /** The sample list has distinct ids and passes the validators. */
  lemma SampleContactsWellFormed()
    ensures IdsDistinct(SampleContacts) && AllAccepted(SampleContacts)
  {
    forall i | 0 <= i < |SampleContacts| ensures Accepted(SampleContacts[i]) {
      var c := SampleContacts[i];
      assert !IsWhitespace(c.name[0]);
      assert |c.phoneNumber| == 10;
    }
  }
}
