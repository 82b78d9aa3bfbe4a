/**
 * The list screen's search: an order-preserving filter of the contacts by a
 * free-text query, case-insensitive on the name, plain substring on the phone.
 */
module Search {
  import opened Text
  import opened Lists
  import opened Contacts

  /** A contact matches an already lower-cased query when its lower-cased name,
      or its phone number, contains that query. */
  predicate Matches(c: Contact, lowerQuery: string) {
    Contains(Lowercase(c.name), lowerQuery) || Contains(c.phoneNumber, lowerQuery)
  }

  /** The contacts shown for `query`: all of them for a blank query, otherwise
      those matching the lower-cased query, in list order. */
  function SearchContacts(query: string, all: seq<Contact>): (r: seq<Contact>)
    ensures IsBlank(query) ==> r == all
    ensures |r| <= |all|
    ensures forall c :: c in r ==> c in all
    ensures !IsBlank(query) ==> forall c :: c in r ==> Matches(c, Lowercase(query))
    ensures !IsBlank(query) ==> forall c :: c in all && Matches(c, Lowercase(query)) ==> c in r
  {
    if IsBlank(query) then all
    else
      var lowerQuery := Lowercase(query);
      Filter(all, (c: Contact) => Matches(c, lowerQuery))
  }

  /** The result keeps the relative order of the list and adds nothing to it. */
  lemma SearchIsSubsequence(query: string, all: seq<Contact>)
    ensures IsSubsequence(SearchContacts(query, all), all)
  {
    if IsBlank(query) {
      var idx := seq(|all|, k requires 0 <= k < |all| => k);
      assert Embeds(idx, all, all);
    } else {
      var lowerQuery := Lowercase(query);
      FilterIsSubsequence(all, (c: Contact) => Matches(c, lowerQuery));
    }
  }

  /** Each matching contact is kept as often as it occurs, and nothing else is kept;
      with the order above, this determines the result completely. */
  lemma SearchMultiset(query: string, all: seq<Contact>)
    requires !IsBlank(query)
    ensures forall c :: multiset(SearchContacts(query, all))[c] ==
                          if Matches(c, Lowercase(query)) then multiset(all)[c] else 0
  {
    var lowerQuery := Lowercase(query);
    FilterMultiset(all, (c: Contact) => Matches(c, lowerQuery));
  }

  /** The query's letter case does not matter. */
  lemma SearchIgnoresQueryCase(query: string, all: seq<Contact>)
    ensures SearchContacts(Lowercase(query), all) == SearchContacts(query, all)
  {
    BlankIgnoresCase(query);
    LowercaseIdempotent(query);
  }

  /** The letter case of a name does not matter either. */
  lemma MatchesIgnoresNameCase(c: Contact, lowerQuery: string)
    ensures Matches(c.(name := Lowercase(c.name)), lowerQuery) == Matches(c, lowerQuery)
  {
    LowercaseIdempotent(c.name);
  }

  /**
   * For a contact whose phone number is all digits, as every stored one is,
   * testing the phone against the lower-cased query is the same as testing it
   * against the query as typed.
   */
  lemma PhoneMatchAsTyped(c: Contact, query: string)
    requires AllDigits(c.phoneNumber)
    ensures Matches(c, Lowercase(query)) <==>
              Contains(Lowercase(c.name), Lowercase(query)) || Contains(c.phoneNumber, query)
  {
    DigitsContainLowercase(c.phoneNumber, query);
  }

  /** "van" finds "Nguyen Van A" by name and not "Le Thi B". */
  lemma SearchByNameExample()
    ensures SearchContacts("van", SampleContacts[..2]) == SampleContacts[..1]
  {
    var a, b := SampleContacts[0], SampleContacts[1];
    assert !IsWhitespace("van"[0]);
    assert Lowercase("van") == "van";
    var aName := Lowercase(a.name);
    assert aName[7..10] == "van";
    assert OccursAt(aName, "van", 7);
    var bName := Lowercase(b.name);
    assert bName == "le thi b";
    MissingFirstChar(bName, "van");
    MissingFirstChar(b.phoneNumber, "van");
    var keep := (c: Contact) => Matches(c, "van");
    assert keep(a) && !keep(b);
    assert SampleContacts[..2] == [a, b];
    assert Filter([a, b], keep) == [a] + Filter([b], keep);
    assert Filter([b], keep) == Filter([], keep);
  }
}
