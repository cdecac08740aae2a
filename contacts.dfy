/**
 * The in-memory contact store: a Python dict from name to phone string,
 * which remembers the order in which names were first inserted.
 *
 * `Book` is the store as a value (its keys in insertion order and the phone
 * under each key) and the functions over it say what each operation does;
 * `ContactStore` is the mutable dict that `add_contact` and `change_phone`
 * update in place, specified by those functions.
 */
module Contacts {
  import opened Text
  import opened Replies

  datatype Book = Book(order: seq<string>, phones: map<string, string>)

  /** What a dict guarantees: each key once in the insertion order, and the
      order holds exactly the keys. */
  ghost predicate WellFormed(b: Book) {
    && (forall i, j :: 0 <= i < j < |b.order| ==> b.order[i] != b.order[j])
    && (forall k :: k in b.phones <==> k in b.order)
  }

  /** What the command handler keeps true of the entries it stores: every
      name came out of `str.split()` and so is a token, and every phone
      passed the digits check. */
  ghost predicate ValidEntries(b: Book) {
    && (forall i :: 0 <= i < |b.order| ==> IsToken(b.order[i]))
    && (forall k :: k in b.phones ==> IsDigits(b.phones[k]))
  }

  const Empty := Book([], map[])

  /** An operation's outcome together with the store it leaves behind. */
  datatype Step = Step(outcome: Outcome, book: Book)

  function AddedReply(name: string): string {
    "Contact " + name + " added successfully."
  }

  function ExistsReply(name: string): string {
    "Contact " + name + " already exists. Use 'change' to modify the phone number."
  }

  function ChangedReply(name: string): string {
    "Phone number for " + name + " changed successfully."
  }

  /** The line `f"{name}: {phone}"` shown for one contact. */
  function Entry(name: string, phone: string): string {
    name + ": " + phone
  }

  /** `add_contact`: a phone that is not all digits is a TypeError (checked
      first); a name already present is refused with a reply; otherwise the
      entry is inserted at the end of the order. */
  function Add(b: Book, name: string, phone: string): (r: Step)
    ensures r.outcome == TypeErr <==> !IsDigits(phone)
    ensures IsDigits(phone) && name in b.phones ==> r == Step(Ok(ExistsReply(name)), b)
    ensures r.book != b <==> IsDigits(phone) && name !in b.phones
    ensures r.book != b ==>
      && r.outcome == Ok(AddedReply(name))
      && r.book.order == b.order + [name]
      && r.book.phones == b.phones[name := phone]
    ensures IsDigits(phone) ==> name in r.book.phones
    ensures WellFormed(b) ==> WellFormed(r.book)
  {
    if !IsDigits(phone) then Step(TypeErr, b)
    else if name in b.phones then Step(Ok(ExistsReply(name)), b)
    else Step(Ok(AddedReply(name)), Book(b.order + [name], b.phones[name := phone]))
  }

  /** `change_phone`: a TypeError for a phone that is not all digits, a
      KeyError for an absent name, otherwise the phone is overwritten in
      place (a dict keeps a key's position when its value is reassigned). */
  function Change(b: Book, name: string, phone: string): (r: Step)
    ensures r.outcome == TypeErr <==> !IsDigits(phone)
    ensures r.outcome == KeyErr <==> IsDigits(phone) && name !in b.phones
    ensures r.outcome.Ok? ==> r.outcome == Ok(ChangedReply(name)) && r.book.phones == b.phones[name := phone]
    ensures !r.outcome.Ok? ==> r.book == b
    ensures r.book.order == b.order && r.book.phones.Keys == b.phones.Keys
    ensures WellFormed(b) ==> WellFormed(r.book)
  {
    if !IsDigits(phone) then Step(TypeErr, b)
    else if name !in b.phones then Step(KeyErr, b)
    else Step(Ok(ChangedReply(name)), Book(b.order, b.phones[name := phone]))
  }

  /** `show_phone`: the contact's line, or a KeyError. */
  function ShowPhone(b: Book, name: string): (r: Outcome)
    ensures r.Ok? || r.KeyErr?
    ensures r.Ok? <==> name in b.phones
    ensures r.Ok? ==> r.msg == Entry(name, b.phones[name])
  {
    if name in b.phones then Ok(Entry(name, b.phones[name])) else KeyErr
  }

  /** The list comprehension of `show_all`: one line per entry, in order. */
  function Lines(b: Book): (lines: seq<string>)
    requires WellFormed(b)
    ensures |lines| == |b.order|
    ensures forall i :: 0 <= i < |b.order| ==> lines[i] == Entry(b.order[i], b.phones[b.order[i]])
  {
    seq(|b.order|, i requires 0 <= i < |b.order| && b.order[i] in b.phones =>
      Entry(b.order[i], b.phones[b.order[i]]))
  }

  /** `show_all`: the lines joined by newlines; the empty string exactly
      when the store is empty, since no line is empty. */
  function ShowAll(b: Book): (r: string)
    requires WellFormed(b)
    ensures r == "" <==> b.order == []
    ensures b.order != [] ==> Entry(b.order[0], b.phones[b.order[0]]) <= r
  {
    var lines := Lines(b);
    assert forall k :: 0 <= k < |lines| ==> |lines[k]| >= 2;
    JoinEmpty("\n", lines);
    Join("\n", lines)
  }

  // ---------------------------------------------------------------------
  // Properties of the store operations

  /** A phone that is not a non-empty string of digits is refused by both
      writers with a TypeError, whatever the name, and nothing changes. */
  lemma InvalidPhoneRejected(b: Book, name: string, phone: string)
    requires !IsDigits(phone)
    ensures Add(b, name, phone) == Step(TypeErr, b)
    ensures Change(b, name, phone) == Step(TypeErr, b)
  {
  }

  /** Adding a new name with a valid phone appends exactly that entry: the
      new line comes last, every earlier line stays, and every other name
      still shows the same phone. */
  lemma AddAppends(b: Book, name: string, phone: string)
    requires WellFormed(b) && IsDigits(phone) && name !in b.phones
    ensures var a := Add(b, name, phone);
      && a.outcome == Ok(AddedReply(name))
      && WellFormed(a.book)
      && Lines(a.book) == Lines(b) + [Entry(name, phone)]
      && ShowPhone(a.book, name) == Ok(Entry(name, phone))
      && forall other :: other != name ==> ShowPhone(a.book, other) == ShowPhone(b, other)
  {
  }

  /** A name already present is refused with the "already exists" reply
      (when the phone is valid), and the store is left as it was. */
  lemma AddRefusesPresent(b: Book, name: string, phone: string)
    requires name in b.phones
    ensures Add(b, name, phone).book == b
    ensures IsDigits(phone) ==> Add(b, name, phone).outcome == Ok(ExistsReply(name))
  {
  }

  /** Once an add with a valid phone has run, whether it inserted the name
      or found it present, a second add of that name, with any phone,
      changes nothing. */
  lemma AddIdempotent(b: Book, name: string, phone: string, phone': string)
    ensures IsDigits(phone) ==>
      var once := Add(b, name, phone).book; Add(once, name, phone').book == once
  {
  }

  /** Changing an absent name is a KeyError and changes nothing; changing a
      present name replaces only that name's line, keeping the order. */
  lemma ChangeReplaces(b: Book, name: string, phone: string)
    requires WellFormed(b) && IsDigits(phone)
    ensures name !in b.phones ==> Change(b, name, phone) == Step(KeyErr, b)
    ensures name in b.phones ==>
      var c := Change(b, name, phone);
      && c.outcome == Ok(ChangedReply(name))
      && WellFormed(c.book)
      && c.book.order == b.order
      && |Lines(c.book)| == |Lines(b)|
      && (forall i :: 0 <= i < |b.order| ==>
            Lines(c.book)[i] == if b.order[i] == name then Entry(name, phone) else Lines(b)[i])
      && ShowPhone(c.book, name) == Ok(Entry(name, phone))
      && forall other :: other != name ==> ShowPhone(c.book, other) == ShowPhone(b, other)
  {
  }

  /** `show_phone` succeeds exactly for stored names, and its reply is the
      line `show_all` prints for that name. */
  lemma ShowPhoneListed(b: Book, name: string)
    requires WellFormed(b)
    ensures ShowPhone(b, name).Ok? <==> name in b.order
    ensures ShowPhone(b, name).KeyErr? <==> name !in b.order
    ensures ShowPhone(b, name).Ok? ==>
      exists i :: 0 <= i < |b.order| && b.order[i] == name && Lines(b)[i] == ShowPhone(b, name).msg
  {
  }

  /** Splitting `show_all` at newlines gives back one line per entry, in
      insertion order, when names are tokens and phones are digits. */
  lemma ShowAllLines(b: Book)
    requires WellFormed(b) && ValidEntries(b) && b.order != []
    ensures SplitOn('\n', ShowAll(b)) == Lines(b)
    ensures forall i :: 0 <= i < |b.order| ==>
      SplitOn('\n', ShowAll(b))[i] == Entry(b.order[i], b.phones[b.order[i]])
  {
    var lines := Lines(b);
    forall k, i | 0 <= k < |lines| && 0 <= i < |lines[k]| ensures lines[k][i] != '\n' {
      var name := b.order[k];
      var phone := b.phones[name];
      assert lines[k] == name + ": " + phone;
      if i < |name| {
        assert lines[k][i] == name[i];
        assert !IsSpace(name[i]);
      } else if i < |name| + 2 {
        assert lines[k][i] == ": "[i - |name|];
      } else {
        assert lines[k][i] == phone[i - |name| - 2];
      }
    }
    SplitOnJoin('\n', lines);
  }

  /** After a successful add, `show_all` is the old listing with the new
      line appended (or just that line when the store was empty). */
  lemma ShowAllAfterAdd(b: Book, name: string, phone: string)
    requires WellFormed(b) && IsDigits(phone) && name !in b.phones
    ensures WellFormed(Add(b, name, phone).book)
    ensures ShowAll(Add(b, name, phone).book) ==
      if b.order == [] then Entry(name, phone) else ShowAll(b) + "\n" + Entry(name, phone)
  {
    AddAppends(b, name, phone);
    if b.order != [] {
      JoinAppend("\n", Lines(b), Entry(name, phone));
    }
  }

  // ---------------------------------------------------------------------
  // The mutable store

  /** The `contacts` dict that the command handler threads through. */
  class ContactStore {
    var order: seq<string>
    var phones: map<string, string>

    function View(): Book
      reads this
    {
      Book(order, phones)
    }

    ghost predicate Valid()
      reads this
    {
      WellFormed(View())
    }

    constructor ()
      ensures Valid() && View() == Empty
    {
      order := [];
      phones := map[];
    }

    /** `add_contact(contacts, name, phone)`. */
    method AddContact(name: string, phone: string) returns (o: Outcome)
      requires Valid()
      modifies this
      ensures Valid()
      ensures Step(o, View()) == Add(old(View()), name, phone)
    {
      if !IsDigits(phone) {
        return TypeErr;
      }
      if name in phones {
        return Ok(ExistsReply(name));
      }
      phones := phones[name := phone];
      order := order + [name];
      o := Ok(AddedReply(name));
    }

    /** `change_phone(contacts, name, phone)`. */
    method ChangePhone(name: string, phone: string) returns (o: Outcome)
      requires Valid()
      modifies this
      ensures Valid()
      ensures Step(o, View()) == Change(old(View()), name, phone)
    {
      if !IsDigits(phone) {
        return TypeErr;
      }
      if name !in phones {
        return KeyErr;
      }
      phones := phones[name := phone];
      o := Ok(ChangedReply(name));
    }
  }
}
