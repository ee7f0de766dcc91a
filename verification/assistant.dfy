/**
 * The command loop of task_4/main.py: `parse_input` and one turn of `main`,
 * which routes the command to the phonebook handlers and decides whether the
 * loop goes on.
 */
module Assistant {
  import opened Wrappers
  import opened Text
  import opened Handler

  /**
   * `parse_input`: the whitespace-separated words, the first one lower-cased
   * (its `strip()` has nothing left to remove). `None` is the `ValueError` of
   * unpacking an empty list, raised for empty or blank input.
   */
  function ParseInput(userInput: string): (r: Option<seq<string>>)
    ensures r.None? <==> forall i | 0 <= i < |userInput| :: IsSpace(userInput[i])
    ensures r.Some? ==>
              var words := Split(userInput);
              && words != [] && |r.value| == |words| && r.value[0] == Lower(words[0]) && r.value[1..] == words[1..]
  {
    var words := Split(userInput);
    SplitEmptyIffBlank(userInput);
    if words == [] then None else Some([Lower(words[0])] + words[1..])
  }

  /** Words typed with single spaces come back as the command, lower-cased, and the arguments unchanged. */
  lemma ParseInputOfWords(words: seq<string>)
    requires words != [] && forall k | 0 <= k < |words| :: IsWord(words[k])
    ensures ParseInput(JoinWords(words)) == Some([Lower(words[0])] + words[1..])
  {
    SplitJoinWords(words);
  }

  const Greeting: string := "How can I help you?"
  const Goodbye: string := "Goodbye!"
  const Usage: string :=
    "Invalid command. Usage: hello | all | add [name] [phone] | change [name] [phone] | phone [name] | exit | close"

  /** What one turn prints: a line of text, or the contacts dictionary for `all`. */
  datatype Output = Say(text: string) | ShowContacts(contacts: Contacts)

  /** How a turn ends: the loop goes on, it breaks, or the `ValueError` of `parse_input` escapes `main`. */
  datatype Turn = Continue(output: Output) | Stop(output: Output) | Crash

  predicate IsQuit(command: string) {
    command == "exit" || command == "close"
  }

  /**
   * One iteration of the `while True` loop of `main`, on one line of input:
   * only `exit` and `close`, in any case, stop the loop; `add`, `change` and
   * `phone` pass their arguments unchanged to the handler of the same name;
   * every other command leaves the phonebook alone.
   */
  method Dispatch(book: PhoneBook, userInput: string) returns (turn: Turn)
    requires book.Valid()
    modifies book
    ensures book.Valid()
    ensures ParseInput(userInput).None? ==> turn == Crash && book.contacts == old(book.contacts)
    ensures ParseInput(userInput).Some? ==>
              var command, args := ParseInput(userInput).value[0], ParseInput(userInput).value[1..];
              && (turn.Stop? <==> IsQuit(command))
              && (IsQuit(command) ==> turn == Stop(Say(Goodbye)))
              && (command == "add" ==>
                    var h := AddContactEffect(old(book.contacts), args);
                    turn == Continue(Say(h.reply)) && book.contacts == h.contacts)
              && (command == "change" ==>
                    var h := ChangeContactEffect(old(book.contacts), args);
                    turn == Continue(Say(h.reply)) && book.contacts == h.contacts)
              && (command == "phone" ==> turn == Continue(Say(GetPhone(old(book.contacts), args))))
              && (command == "hello" ==> turn == Continue(Say(Greeting)))
              && (command == "all" ==> turn == Continue(ShowContacts(old(book.contacts))))
              && (command !in {"hello", "all", "add", "change", "phone", "exit", "close"} ==>
                    turn == Continue(Say(Usage)))
              && (command !in {"add", "change"} ==> book.contacts == old(book.contacts))
  {
    var parsed := ParseInput(userInput);
    if parsed.None? {
      return Crash;
    }
    var command, args := parsed.value[0], parsed.value[1..];
    if command == "hello" {
      turn := Continue(Say(Greeting));
    } else if command == "all" {
      turn := Continue(ShowContacts(book.GetAllContacts()));
    } else if command == "add" {
      var reply := book.AddContact(args);
      turn := Continue(Say(reply));
    } else if command == "change" {
      var reply := book.ChangeContact(args);
      turn := Continue(Say(reply));
    } else if command == "phone" {
      turn := Continue(Say(GetPhone(book.contacts, args)));
    } else if command in ["exit", "close"] {
      turn := Stop(Say(Goodbye));
    } else {
      turn := Continue(Say(Usage));
    }
  }

  /** `exit` and `close` stop the loop whatever their case. */
  lemma QuitInAnyCase(word: string)
    requires IsWord(word)
    ensures ParseInput(word).Some?
    ensures IsQuit(ParseInput(word).value[0]) <==> Lower(word) == "exit" || Lower(word) == "close"
  {
    ParseInputOfWords([word]);
  }
}
