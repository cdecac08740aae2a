/**
 * `handle_command`: split the line into tokens, lower-case the verb, check
 * the number of tokens and route to a store operation; the `input_error`
 * decorator around it turns whatever it raises into the reply.
 */
module Commands {
  import opened Text
  import opened Replies
  import opened Contacts

  const NoCommandReply := "No command entered."
  const HelloReply := "How can I help you?"
  const ArityReply := "Invalid input. Please enter command, name and phone number."
  const InvalidReply := "Invalid command"

  /** The branch of `handle_command` a token list selects. */
  datatype Command =
    | Blank                                  // no tokens at all
    | Hello
    | WrongArity                             // `add`/`change` without exactly two arguments
    | AddCmd(name: string, phone: string)
    | ChangeCmd(name: string, phone: string)
    | PhoneCmd(name: string)
    | PhoneMissingName                       // `phone` alone: `parts[1]` raises IndexError
    | ListAll                                // `show all`
    | Unknown

  /** The if/elif chain of `handle_command`, in its order: only the verb is
      lower-cased, so `all` after `show` must be written in lower case. */
  function Parse(parts: seq<string>): (c: Command)
    ensures c == Blank <==> parts == []
    ensures c.AddCmd? || c.ChangeCmd? ==> |parts| == 3 && c.name == parts[1] && c.phone == parts[2]
    ensures c.PhoneCmd? ==> |parts| >= 2 && c.name == parts[1]
    ensures c == PhoneMissingName ==> |parts| == 1
    ensures c == ListAll ==> parts == [parts[0], "all"]
  {
    if parts == [] then Blank
    else
      var cmd := Lower(parts[0]);
      if cmd == "hello" then Hello
      else if (cmd == "add" || cmd == "change") && |parts| != 3 then WrongArity
      else if cmd == "add" then AddCmd(parts[1], parts[2])
      else if cmd == "change" then ChangeCmd(parts[1], parts[2])
      else if cmd == "phone" then
        if |parts| < 2 then PhoneMissingName else PhoneCmd(parts[1])
      else if cmd == "show" && |parts| == 2 && parts[1] == "all" then ListAll
      else Unknown
  }

  /** What `handle_command` raises or returns once the line is split into
      `parts`, and the contacts it leaves behind. */
  function Dispatch(b: Book, parts: seq<string>): (r: Step)
    requires WellFormed(b)
    ensures WellFormed(r.book)
    ensures !(Parse(parts).AddCmd? || Parse(parts).ChangeCmd?) ==> r.book == b
    ensures parts == [] ==> r == Step(ValErr(NoCommandReply), b)
  {
    match Parse(parts)
    case Blank => Step(ValErr(NoCommandReply), b)
    case Hello => Step(Ok(HelloReply), b)
    case WrongArity => Step(ValErr(ArityReply), b)
    case AddCmd(name, phone) => Add(b, name, phone)
    case ChangeCmd(name, phone) => Change(b, name, phone)
    case PhoneCmd(name) => Step(ShowPhone(b, name), b)
    case PhoneMissingName => Step(IdxErr, b)
    case ListAll => Step(Ok(ShowAll(b)), b)
    case Unknown => Step(ValErr(InvalidReply), b)
  }

  /** What `handle_command(line, contacts)` raises or returns. */
  function Respond(b: Book, line: string): (r: Step)
    requires WellFormed(b)
    ensures WellFormed(r.book)
    ensures AllSpace(line) ==> r == Step(ValErr(NoCommandReply), b)
  {
    SplitBlank(line);
    Dispatch(b, Split(line))
  }

  /** The decorated handler's reply to one line. */
  function Reply(b: Book, line: string): (reply: string)
    requires WellFormed(b)
    ensures Respond(b, line).outcome.Ok? ==> reply == Respond(b, line).outcome.msg
    ensures Respond(b, line).outcome == KeyErr ==> reply == NoContactReply
    ensures Respond(b, line).outcome == TypeErr ==> reply == BadTypesReply
    ensures AllSpace(line) ==> reply == NoCommandReply
  {
    InputError(Respond(b, line).outcome)
  }

  // ---------------------------------------------------------------------
  // Properties of the dispatcher

  /** Each branch of the dispatcher, described by the reference meaning of a
      case-insensitive match of the verb rather than by `lower()`. */
  lemma ParseCases(parts: seq<string>)
    ensures Parse(parts) == Blank <==> parts == []
    ensures parts != [] ==>
      var verb := parts[0];
      && (Parse(parts) == Hello <==> EqualsIgnoringCase(verb, "hello"))
      && (Parse(parts) == WrongArity <==>
            (EqualsIgnoringCase(verb, "add") || EqualsIgnoringCase(verb, "change")) && |parts| != 3)
      && (Parse(parts).AddCmd? <==> EqualsIgnoringCase(verb, "add") && |parts| == 3)
      && (Parse(parts).ChangeCmd? <==> EqualsIgnoringCase(verb, "change") && |parts| == 3)
      && (Parse(parts) == PhoneMissingName <==> EqualsIgnoringCase(verb, "phone") && |parts| == 1)
      && (Parse(parts).PhoneCmd? <==> EqualsIgnoringCase(verb, "phone") && |parts| >= 2)
      && (Parse(parts) == ListAll <==>
            EqualsIgnoringCase(verb, "show") && |parts| == 2 && parts[1] == "all")
      && (Parse(parts) == Unknown <==>
            && !EqualsIgnoringCase(verb, "hello") && !EqualsIgnoringCase(verb, "add")
            && !EqualsIgnoringCase(verb, "change") && !EqualsIgnoringCase(verb, "phone")
            && !(EqualsIgnoringCase(verb, "show") && |parts| == 2 && parts[1] == "all"))
    ensures Parse(parts).AddCmd? || Parse(parts).ChangeCmd? ==>
      Parse(parts).name == parts[1] && Parse(parts).phone == parts[2]
    ensures Parse(parts).PhoneCmd? ==> Parse(parts).name == parts[1]
  {
    if parts != [] {
      var verb := parts[0];
      LowerMatches(verb, "hello");
      LowerMatches(verb, "add");
      LowerMatches(verb, "change");
      LowerMatches(verb, "phone");
      LowerMatches(verb, "show");
    }
  }

  /** Only an `add` or a `change` with a valid phone can change the
      contacts; every malformed line, lookup and listing leaves them alone. */
  lemma OnlyWritersChangeStore(b: Book, line: string)
    requires WellFormed(b)
    ensures var c := Parse(Split(line));
      Respond(b, line).book != b ==>
        (c.AddCmd? || c.ChangeCmd?) && IsDigits(c.phone) && Respond(b, line).outcome.Ok?
  {
    var parts := Split(line);
    assert Respond(b, line) == Dispatch(b, parts);
  }

  /** The routing of each command with its verb in any case: `hello`,
      `phone <name>` and `show all` reach their replies with the store
      unchanged; `add` and `change` with two arguments reach the writers. */
  lemma DispatchRoutes(b: Book, parts: seq<string>)
    requires WellFormed(b)
    ensures parts != [] && EqualsIgnoringCase(parts[0], "hello") ==>
      Dispatch(b, parts) == Step(Ok(HelloReply), b)
    ensures |parts| >= 2 && EqualsIgnoringCase(parts[0], "phone") ==>
      Dispatch(b, parts) == Step(ShowPhone(b, parts[1]), b)
    ensures |parts| == 2 && EqualsIgnoringCase(parts[0], "show") && parts[1] == "all" ==>
      Dispatch(b, parts) == Step(Ok(ShowAll(b)), b)
    ensures |parts| == 3 && EqualsIgnoringCase(parts[0], "add") ==>
      Dispatch(b, parts) == Add(b, parts[1], parts[2])
    ensures |parts| == 3 && EqualsIgnoringCase(parts[0], "change") ==>
      Dispatch(b, parts) == Change(b, parts[1], parts[2])
  {
    ParseCases(parts);
  }

  /** A line with `add` or `change` (in any case) and the wrong number of
      tokens gets the arity reply and changes nothing. */
  lemma WrongArityLine(b: Book, line: string)
    requires WellFormed(b)
    requires var parts := Split(line);
      && parts != []
      && (EqualsIgnoringCase(parts[0], "add") || EqualsIgnoringCase(parts[0], "change"))
      && |parts| != 3
    ensures Respond(b, line).book == b
    ensures Reply(b, line) == ArityReply
  {
  }

  /** A verb that is none of the five, or `show` not followed by exactly
      `all`, gets "Invalid command" and changes nothing. */
  lemma UnknownLine(b: Book, line: string)
    requires WellFormed(b)
    requires var parts := Split(line);
      && parts != []
      && !EqualsIgnoringCase(parts[0], "hello") && !EqualsIgnoringCase(parts[0], "add")
      && !EqualsIgnoringCase(parts[0], "change") && !EqualsIgnoringCase(parts[0], "phone")
      && !(EqualsIgnoringCase(parts[0], "show") && |parts| == 2 && parts[1] == "all")
    ensures Respond(b, line).book == b
    ensures Reply(b, line) == InvalidReply
  {
  }

  /** `phone` with no name raises IndexError, answered
      "Enter user name and phone number." */
  lemma PhoneWithoutName(b: Book, line: string)
    requires WellFormed(b)
    requires var parts := Split(line); |parts| == 1 && EqualsIgnoringCase(parts[0], "phone")
    ensures Respond(b, line).book == b
    ensures Reply(b, line) == MissingArgsReply
  {
    ParseCases(Split(line));
  }

  /** Every line keeps the store a well-formed dict whose names are tokens
      and whose phones are digit strings. */
  lemma RespondKeepsInvariant(b: Book, line: string)
    requires WellFormed(b) && ValidEntries(b)
    ensures WellFormed(Respond(b, line).book) && ValidEntries(Respond(b, line).book)
  {
  }

  // ---------------------------------------------------------------------
  // A short session, step by step

  const AnnOnly := Book(["Ann"], map["Ann" := "123"])
  const AnnAndBob := Book(["Ann", "Bob"], map["Ann" := "123", "Bob" := "456"])

  /** Adding to the empty store. */
  lemma ExampleAdd()
    ensures Dispatch(Empty, ["add", "Ann", "123"]) ==
      Step(Ok("Contact Ann added successfully."), AnnOnly)
  {
    assert Lower("add") == "add";
    assert AddedReply("Ann") == "Contact Ann added successfully.";
    assert Empty.phones["Ann" := "123"] == AnnOnly.phones;
  }

  /** The same step from the typed line `add Ann 123` itself, through the
      tokenizer's round trip. */
  lemma ExampleAddLine()
    ensures Respond(Empty, Join(" ", ["add", "Ann", "123"])).book == AnnOnly
  {
    var tokens := ["add", "Ann", "123"];
    assert IsToken(tokens[0]) && IsToken(tokens[1]) && IsToken(tokens[2]);
    SplitJoin(tokens);
    ExampleAdd();
  }

  /** The same name again, verb in upper case: refused, nothing changes. */
  lemma ExampleDuplicate()
    ensures Dispatch(AnnOnly, ["ADD", "Ann", "555"]) ==
      Step(Ok(ExistsReply("Ann")), AnnOnly)
  {
  }

  /** Changing an unknown name, changing with a phone that is not all
      digits, and `phone` without a name. */
  lemma ExampleErrors()
    ensures Dispatch(AnnOnly, ["change", "Bob", "42"]) == Step(KeyErr, AnnOnly)
    ensures Dispatch(AnnOnly, ["change", "Ann", "12a"]) == Step(TypeErr, AnnOnly)
    ensures Dispatch(AnnOnly, ["phone"]) == Step(IdxErr, AnnOnly)
  {
    assert Lower("change") == "change";
    assert Lower("phone") == "phone";
    assert "12a"[2] == 'a';
  }

  /** A second add goes to the end of the insertion order. */
  lemma ExampleSecondAdd()
    ensures Dispatch(AnnOnly, ["add", "Bob", "456"]) == Step(Ok(AddedReply("Bob")), AnnAndBob)
  {
  }

  /** The two lines of the listing with Ann then Bob stored. */
  lemma ExampleLines()
    ensures WellFormed(AnnAndBob)
    ensures ShowAll(AnnAndBob) == "Ann: 123\nBob: 456"
  {
    var lines := Lines(AnnAndBob);
    assert AnnAndBob.order[0] == "Ann" && AnnAndBob.phones["Ann"] == "123";
    assert AnnAndBob.order[1] == "Bob" && AnnAndBob.phones["Bob"] == "456";
    assert lines[0] == "Ann: 123" && lines[1] == "Bob: 456";
    assert lines[1..] == ["Bob: 456"];
    assert Join("\n", lines) == "Ann: 123" + "\n" + "Bob: 456" == "Ann: 123\nBob: 456";
  }

  /** The listing in insertion order. */
  lemma ExampleListing()
    ensures Dispatch(AnnAndBob, ["show", "all"]) == Step(Ok("Ann: 123\nBob: 456"), AnnAndBob)
  {
    assert Lower("show") == "show";
    assert Parse(["show", "all"]) == ListAll;
    ExampleLines();
  }

  /** Only the verb is lower-cased: `show ALL` is not a command. */
  lemma ExampleShowUpperAll()
    ensures Dispatch(AnnAndBob, ["show", "ALL"]) == Step(ValErr("Invalid command"), AnnAndBob)
  {
    assert Lower("show") == "show";
  }

  // ---------------------------------------------------------------------
  // The handler over the mutable store

  /** `handle_command(line, contacts)` with its `input_error` decorator. */
  method HandleCommand(store: ContactStore, line: string) returns (reply: string)
    requires store.Valid()
    modifies store
    ensures store.Valid()
    ensures reply == Reply(old(store.View()), line)
    ensures store.View() == Respond(old(store.View()), line).book
  {
    var o: Outcome;
    match Parse(Split(line)) {
      case Blank => o := ValErr(NoCommandReply);
      case Hello => o := Ok(HelloReply);
      case WrongArity => o := ValErr(ArityReply);
      case AddCmd(name, phone) => o := store.AddContact(name, phone);
      case ChangeCmd(name, phone) => o := store.ChangePhone(name, phone);
      case PhoneCmd(name) => o := ShowPhone(store.View(), name);
      case PhoneMissingName => o := IdxErr;
      case ListAll => o := Ok(ShowAll(store.View()));
      case Unknown => o := ValErr(InvalidReply);
    }
    reply := InputError(o);
  }
}
