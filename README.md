# Contact bot: command handler and in-memory contact store

This project models, in Dafny, the core of a small console contact bot
(`main.py`). The bot keeps its contacts in a Python dict from name to phone
string. A dict remembers the order in which keys were first inserted. Each line
the user types goes to `handle_command`. It splits the line into tokens and
lower-cases the first token, the verb. It checks how many tokens there are and
calls one of four store operations:

- `add_contact` inserts a new name. It refuses a name that is already present.
- `change_phone` overwrites the phone of a name that is present.
- `show_phone` shows one contact.
- `show_all` lists every contact in insertion order.

A decorator, `input_error`, wraps the handler. It turns each exception kind the
handler raises into a fixed reply.

The Dafny files:

- `text.dfy` (module `Text`) models the Python string built-ins the bot uses:
  `str.split()`, `str.lower()`, `str.isdigit()` and `sep.join(...)`. It also
  defines `SplitOn`, Python's `s.split(c)` for one character. The bot does not
  call it; it is the inverse of the `"\n".join` in `show_all`, used to state
  the layout of the listing. The module proves that splitting undoes joining
  with spaces, that a line splits into nothing exactly when it is blank, and
  that comparing the lower-cased verb with a lower-case word is a
  case-insensitive match.
- `replies.dfy` (module `Replies`) holds the outcome of an operation. The
  outcome is a returned string or one of the four exception kinds (`KeyError`,
  `ValueError` with its message, `IndexError`, `TypeError`). The module also
  holds the decorator as a function from outcome to reply.
- `contacts.dfy` (module `Contacts`) describes the dict as a value, `Book`: the
  keys in insertion order and a map from name to phone. The operations are
  functions on `Book`, and lemmas state what each one does. The class
  `ContactStore` is the mutable dict. Its methods `AddContact` and
  `ChangePhone` update its fields in place, and their contracts tie the new
  state to those functions.
- `commands.dfy` (module `Commands`) holds the token-level dispatcher `Parse`
  and the whole handler as a function of the store and the line (`Respond`,
  `Reply`). The method `HandleCommand` threads a `ContactStore` through the
  handler and calls the mutating methods. Lemmas cover the malformed-input
  replies, the case-insensitive verb, the invariant every line keeps, and a
  short worked session.

## Model

| member | source | states |
|---|---|---|
| `Text.Split` | main.py:41 | `command.split()` returns tokens that are each non-empty and free of whitespace (the whitespace set is the one Python's `str.split()` uses) |
| `Text.SplitSkipsSpace` | main.py:41 | `split()` drops any leading run of whitespace: the line with that run removed splits to the same tokens |
| `Text.SplitTokenThenSpace` | main.py:41 | a token followed by any non-empty run of whitespace (spaces, tabs, or a mix) becomes one whole token, and the run counts as one separator, whatever follows |
| `Text.SplitJoin` | main.py:41 | splitting the space-joined list of any tokens gives back exactly those tokens, in order |
| `Text.SplitBlank` | main.py:41-43 | `split()` yields no tokens exactly when every character of the line is whitespace |
| `Text.LowerMatches` | main.py:44 | the lower-cased verb equals a lower-case word exactly when the verb spells that word with each letter in either case |
| `Text.Lower` | main.py:44 | `parts[0].lower()` keeps the length, leaves no upper-case ASCII letter, and changes a character only by turning an upper-case letter into its lower-case one |
| `Text.IsDigits` | main.py:16 | a string that passes `phone.isdigit()` is non-empty and holds no whitespace, so it is a single token |
| `Text.Join` | main.py:37 | `sep.join(parts)` of a non-empty list begins with the first part |
| `Text.SplitOn` | main.py:37 | a reference inverse of the `"\n".join` here (Python's `s.split(c)`, which the bot does not call): `s.split(sep)` gives at least one part, no part holds the separator, and joining the parts with the separator gives back `s` |
| `Text.SplitOnJoin` | main.py:37 | splitting a `"\n".join` of parts that contain no newline at `"\n"` gives back those parts |
| `Replies.InputError` | main.py:1-13 | a returned string and a ValueError's message pass through unchanged; KeyError, IndexError and TypeError each map to their own fixed reply, and only they produce those replies |
| `Contacts.Add` | main.py:15-21 | TypeError exactly for a phone that is not a digit string, checked first; for a present name the "already exists" reply with the store unchanged; the store changes exactly when the phone is valid and the name absent, and then the reply is "Contact {name} added successfully.", the name goes at the end of the order and maps to its phone; after a valid-phone add the name is stored; a well-formed dict stays well-formed |
| `Contacts.Change` | main.py:23-29 | TypeError exactly for a phone that is not a digit string; KeyError exactly for a valid phone and an absent name; on success the reply is "Phone number for {name} changed successfully." and only that name's phone is replaced; on failure nothing changes; the key order and the key set never change |
| `Contacts.ShowPhone` | main.py:31-34 | only a reply or a KeyError; a reply exactly when the name is stored, and then it is `"{name}: {phone}"` with the stored phone |
| `Contacts.Lines` | main.py:37 | the comprehension gives one line per stored name, in insertion order, each `"{name}: {phone}"` with that name's phone |
| `Contacts.ShowAll` | main.py:36-37 | `show_all` is the empty string exactly when the store is empty; otherwise it begins with the first-inserted contact's line |
| `Contacts.InvalidPhoneRejected` | main.py:16-25 | a phone that is not a non-empty digit string makes both add and change fail with TypeError, for any name, and leaves the store as it was |
| `Contacts.AddAppends` | main.py:18-21 | adding a new name with a valid phone succeeds and keeps the store a well-formed dict; the listing gains exactly the new line at the end; the new name shows its phone and every other name shows what it showed before |
| `Contacts.AddRefusesPresent` | main.py:18-19 | adding a name that is present leaves the store unchanged and, for a valid phone, replies "Contact {name} already exists. Use 'change' to modify the phone number." |
| `Contacts.AddIdempotent` | main.py:15-21 | after an add with a valid phone, from any store, a second add of the same name with any phone leaves the store as the first add left it |
| `Contacts.ChangeReplaces` | main.py:26-29 | change of an absent name is a KeyError with the store unchanged; change of a present name keeps the key order, replaces only that name's line in the listing, and leaves every other name's phone as it was |
| `Contacts.ShowPhoneListed` | main.py:31-34 | `show_phone` succeeds exactly for stored names and is a KeyError otherwise; its reply is the line `show_all` prints for that name |
| `Contacts.ShowAllLines` | main.py:36-37 | splitting `show_all` at newlines gives one line `"{name}: {phone}"` per entry, in insertion order |
| `Contacts.ShowAllAfterAdd` | main.py:20-21 | after a successful add, `show_all` is the old listing plus a newline and the new line, or just the new line when the store was empty |
| `Contacts.ContactStore.constructor` | main.py:62 | a new store is an empty, well-formed dict |
| `Contacts.ContactStore.AddContact` | main.py:15-21 | the returned outcome and the updated fields are those `Contacts.Add` gives for the old store; the dict stays well-formed |
| `Contacts.ContactStore.ChangePhone` | main.py:23-29 | the returned outcome and the updated fields are those `Contacts.Change` gives for the old store; the dict stays well-formed |
| `Commands.Parse` | main.py:41-59 | no tokens exactly selects the blank branch; `add` and `change` are selected only with exactly 3 tokens, taking name and phone from tokens 2 and 3; `phone` with a name takes token 2; `phone` without one has a single token; `show all` is exactly the two tokens with `all` in lower case |
| `Commands.Dispatch` | main.py:39-59 | the store stays a well-formed dict; any branch other than `add` and `change` leaves it unchanged; no tokens raise ValueError("No command entered.") |
| `Commands.Respond` | main.py:39-59 | `handle_command` on a line keeps the store a well-formed dict; a blank or whitespace-only line raises ValueError("No command entered.") and leaves the store unchanged |
| `Commands.Reply` | main.py:1-13 | the decorated handler's reply is the handler's returned string, "No such contact found." for a KeyError, the invalid-types reply for a TypeError, and "No command entered." for a blank or whitespace-only line |
| `Commands.ParseCases` | main.py:42-59 | each branch of the dispatcher in terms of a case-insensitive verb match: no tokens; `hello`; `add`/`change` with a token count other than 3; `add`/`change` with exactly 3 tokens, taking name and phone from tokens 2 and 3; `phone` alone; `phone` with a name (extra tokens ignored); `show all` with `all` in lower case; anything else is unknown |
| `Commands.DispatchRoutes` | main.py:46-57 | with the verb in any case: `hello` answers "How can I help you?", `phone` with a name gives that name's line or a KeyError, and `show all` returns the whole listing, none of them changing the store; `add` and `change` with exactly two arguments give what `add_contact` and `change_phone` give for those arguments |
| `Commands.WrongArityLine` | main.py:48-49 | `add` or `change`, in any case, with a token count other than 3 gets "Invalid input. Please enter command, name and phone number." and leaves the store unchanged |
| `Commands.PhoneWithoutName` | main.py:54-55 | `phone` with no name raises IndexError, answered "Enter user name and phone number.", and leaves the store unchanged |
| `Commands.UnknownLine` | main.py:56-59 | a verb that is none of the five, or `show` not followed by exactly `all`, gets "Invalid command" and leaves the store unchanged |
| `Commands.OnlyWritersChangeStore` | main.py:46-59 | only an `add` or a `change` with a digit phone that succeeds can change the store |
| `Commands.RespondKeepsInvariant` | main.py:39-59 | every line keeps the store a well-formed dict whose names are tokens and whose phones are digit strings |
| `Commands.ExampleAdd` | main.py:50-51 | the tokens of `add Ann 123` on an empty store replies "Contact Ann added successfully." and stores Ann → 123 |
| `Commands.ExampleAddLine` | main.py:41-51 | the typed line `add Ann 123` (the three tokens joined by spaces) on an empty store leaves exactly Ann → 123 stored |
| `Commands.ExampleDuplicate` | main.py:18-19 | the tokens of `ADD Ann 555` when Ann is stored gets the "already exists" reply and changes nothing |
| `Commands.ExampleErrors` | main.py:23-55 | for the tokens of each line: `change Bob 42` with Bob absent is a KeyError, `change Ann 12a` is a TypeError, and `phone` alone is an IndexError; none changes the store |
| `Commands.ExampleSecondAdd` | main.py:20-21 | the tokens of `add Bob 456` when only Ann is stored succeeds and puts Bob after Ann in the insertion order |
| `Commands.ExampleLines` | main.py:36-37 | with Ann then Bob stored, `show_all` returns "Ann: 123\nBob: 456" |
| `Commands.ExampleListing` | main.py:56-57 | with Ann then Bob stored, the tokens of `show all` return "Ann: 123\nBob: 456" |
| `Commands.ExampleShowUpperAll` | main.py:44-59 | the tokens of `show ALL` are an invalid command: only the verb is lower-cased |
| `Commands.HandleCommand` | main.py:39-59 | the reply is the decorated handler's reply to the line for the old store; the new store is the one the handler leaves; the dict stays well-formed |

## Left out

- `main()` (main.py:61-72): the interactive loop reads from the console, prints replies and stops on "good bye", "close" or "exit". This is console I/O and is not modelled. Its catch-all `except Exception` is not modelled either.
- `handle_command` called without a store: the parameter defaults to `None`, but `main()` always passes the dict, so the model always has a store.
- The `isinstance(name, str)` and `isinstance(phone, str)` checks (main.py:16, main.py:24) always hold, because every argument comes from `str.split()`. Names and phones are plain strings in the model.
- `Text.IsDigits`: Python's `str.isdigit()` also accepts non-ASCII digits, such as Arabic-Indic digits or superscripts. The model accepts only a non-empty string of the ASCII digits `0`-`9`.
- `Text.Join`: its own contract says only that the result begins with the first part. What the joined string is, in full, is stated through its partners: `Text.SplitJoin` and `Text.SplitOnJoin` (splitting undoes the join) and `Text.SplitOn` (joining undoes the split).
- `Text.Lower`: Python's `str.lower()` maps all of Unicode, and can change a string's length. The model lowers only the ASCII letters. No non-ASCII character lowers into a letter of `hello`, `add`, `change`, `phone` or `show`, so verb matching is still exact.
- Birthdays, several phones per contact, adding a phone to an existing name, search, paging and saving to a file are not in `main.py`. The model follows `main.py`, where a second `add` of a name is refused.
