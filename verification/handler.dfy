/**
 * The phonebook of task_4/handler.py: a name-to-phone dictionary changed in place
 * by `add_contact` and `change_contact`, read by `get_phone`, with phone numbers
 * normalised to 13 characters of `+` and digits, the country code `+38` put in
 * front unless the number already begins with `+`. The
 * `input_error` decorator, which turns raised exceptions into reply strings, is
 * the function `InputError` over an explicit outcome.
 */
module Handler {
  import opened Wrappers
  import opened Text

  type Contacts = map<string, string>

  /** What a handler raises: a `ContactError` with its message, or a `ValueError`/`IndexError`. */
  datatype Raised = ContactError(message: string) | InvalidInput

  const AddUsage: string := "Invalid command. Usage: add [ім'я] [номер телефону]"
  const ChangeUsage: string := "Invalid command. Usage: change [ім'я] [номер телефону]"
  const PhoneUsage: string := "Invalid command. Usage: phone [ім'я]"
  const ContactAdded: string := "Contact added."
  const ContactUpdated: string := "Contact updated."
  const AlreadyExists: string := "Contact already exists."
  const NoSuchContact: string := "No such contact."
  const CountryCode: string := "38"

  /**
   * `input_error(strerror)`: a normal return passes through, a `ContactError`
   * becomes its message, and a `ValueError` or `IndexError` becomes `strerror`.
   */
  function InputError(strerror: string, outcome: Result<string, Raised>): (reply: string)
    ensures outcome.Success? ==> reply == outcome.value
    ensures outcome == Failure(InvalidInput) ==> reply == strerror
    ensures forall m :: outcome == Failure(ContactError(m)) ==> reply == m
  {
    match outcome
    case Success(s) => s
    case Failure(ContactError(m)) => m
    case Failure(InvalidInput) => strerror
  }

  // ---------------------------------------------------------------- phone numbers

  /** The character class `[+\d]`. */
  predicate IsPhoneChar(c: char) {
    c == '+' || IsDigit(c)
  }

  /** What every stored number looks like: 13 characters from `[+\d]`, the first a `+`. */
  predicate IsNormalizedPhone(p: string) {
    |p| == 13 && p[0] == '+' && forall i | 0 <= i < |p| :: IsPhoneChar(p[i])
  }

  /** `"".join(re.findall(r"[+\d]", s))`: the `+` signs and digits of `s`, in order. */
  function KeepPhoneChars(s: string): (r: string)
    ensures |r| <= |s|
    ensures forall i | 0 <= i < |r| :: IsPhoneChar(r[i])
    ensures multiset(r) <= multiset(s)
  {
    if s == [] then []
    else
      assert s == [s[0]] + s[1..];
      (if IsPhoneChar(s[0]) then [s[0]] else []) + KeepPhoneChars(s[1..])
  }

  /** `re.sub(r"^(38)?", "+38", s)`: a leading `38` becomes `+38`, otherwise `+38` is put in front. */
  function WithCountryCode(s: string): (r: string)
    ensures "+" + CountryCode <= r
    ensures CountryCode <= s ==> r == "+" + s
    ensures !(CountryCode <= s) ==> r[3..] == s
  {
    if CountryCode <= s then "+" + CountryCode + s[|CountryCode|..] else "+" + CountryCode + s
  }

  /** `_normalize_phone`: keep `[+\d]`, add the `+38` prefix unless a `+` leads, demand 13 characters. */
  function NormalizePhone(phone: string): (r: Result<string, Raised>)
    ensures r.Success? ==> IsNormalizedPhone(r.value)
    ensures r.Failure? ==> r.error == InvalidInput
  {
    NormalizeKept(KeepPhoneChars(phone))
  }

  /** The steps of `_normalize_phone` after the `findall`, on the kept `+` signs and digits. */
  function NormalizeKept(kept: string): Result<string, Raised> {
    var prefixed := if kept != [] && kept[0] == '+' then kept else WithCountryCode(kept);
    if |prefixed| != 13 then Failure(InvalidInput) else Success(prefixed)
  }

  /**
   * Every outcome of `_normalize_phone`, from the `+` signs and digits it keeps:
   * kept text led by `+` is stored as it is, text led by the country code gets a
   * `+`, any other text gets `+38`; the result is stored exactly when it comes to
   * 13 characters, and otherwise the call raises `ValueError`.
   */
  lemma NormalizePhoneCases(phone: string)
    ensures var k := KeepPhoneChars(phone);
      && (k != [] && k[0] == '+' ==>
            NormalizePhone(phone) == if |k| == 13 then Success(k) else Failure(InvalidInput))
      && (!(k != [] && k[0] == '+') && CountryCode <= k ==>
            NormalizePhone(phone) == if |k| == 12 then Success("+" + k) else Failure(InvalidInput))
      && (!(k != [] && k[0] == '+') && !(CountryCode <= k) ==>
            NormalizePhone(phone) == if |k| == 10 then Success("+38" + k) else Failure(InvalidInput))
  {
    NormalizeKeptCases(KeepPhoneChars(phone));
  }

  lemma NormalizeKeptCases(k: string)
    ensures k != [] && k[0] == '+' ==>
              NormalizeKept(k) == if |k| == 13 then Success(k) else Failure(InvalidInput)
    ensures !(k != [] && k[0] == '+') && CountryCode <= k ==>
              NormalizeKept(k) == if |k| == 12 then Success("+" + k) else Failure(InvalidInput)
    ensures !(k != [] && k[0] == '+') && !(CountryCode <= k) ==>
              NormalizeKept(k) == if |k| == 10 then Success("+38" + k) else Failure(InvalidInput)
  {
    if !(k != [] && k[0] == '+') {
      if CountryCode <= k {
        assert k == CountryCode + k[2..];
        assert "+" + CountryCode + k[2..] == "+" + k;
      } else {
        assert "+" + CountryCode + k == "+38" + k;
      }
    }
  }

  /**
   * Only the start is checked for `+`: a `+` further in is kept, so twelve
   * characters such as "38050+123456" are stored with the `+` inside them.
   */
  lemma InnerPlusKept(a: string, b: string)
    requires IsDigits(a) && IsDigits(b) && CountryCode <= a && |a| + 1 + |b| == 12
    ensures NormalizePhone(a + "+" + b) == Success("+" + a + "+" + b)
  {
    DigitsAroundPlus(a, b);
    NormalizePhoneChars(a + "+" + b);
    CodeThenInnerPlus(a, b);
  }

  /** A number made only of `+` signs and digits loses nothing to the `findall`. */
  lemma NormalizePhoneChars(w: string)
    requires forall i | 0 <= i < |w| :: IsPhoneChar(w[i])
    ensures NormalizePhone(w) == NormalizeKept(w)
  {
    KeepPhoneCharsOfPhoneChars(w);
  }

  lemma CodeThenInnerPlus(a: string, b: string)
    requires CountryCode <= a && |a| + 1 + |b| == 12
    ensures NormalizeKept(a + "+" + b) == Success("+" + a + "+" + b)
  {
    var w := a + "+" + b;
    assert w[0] == a[0] && w[..2] == a[..2];
    NormalizeKeptCases(w);
    assert "+" + w == "+" + a + "+" + b;
  }

  lemma DigitsAroundPlus(a: string, b: string)
    requires IsDigits(a) && IsDigits(b)
    ensures forall i | 0 <= i < |a + "+" + b| :: IsPhoneChar((a + "+" + b)[i])
  {
    var w := a + "+" + b;
    forall i | 0 <= i < |w| ensures IsPhoneChar(w[i]) {
      if i < |a| { assert w[i] == a[i]; } else if i > |a| { assert w[i] == b[i - |a| - 1]; }
    }
  }

  lemma {:induction false} KeepPhoneCharsOfPhoneChars(s: string)
    requires forall i | 0 <= i < |s| :: IsPhoneChar(s[i])
    ensures KeepPhoneChars(s) == s
  {
    if s != [] {
      KeepPhoneCharsOfPhoneChars(s[1..]);
    }
  }

  /** A normalised number is its own normal form, so normalising twice changes nothing. */
  lemma NormalizeNormalized(p: string)
    requires IsNormalizedPhone(p)
    ensures NormalizePhone(p) == Success(p)
  {
    KeepPhoneCharsOfPhoneChars(p);
  }

  lemma NormalizeIdempotent(phone: string)
    requires NormalizePhone(phone).Success?
    ensures NormalizePhone(NormalizePhone(phone).value) == NormalizePhone(phone)
  {
    NormalizeNormalized(NormalizePhone(phone).value);
  }

  /**
   * A ten-digit national number gets `+38` in front, unless it already begins
   * with `38`, in which case only the `+` is added and it is too short.
   */
  lemma NormalizeNationalNumber(d: string)
    requires |d| == 10 && IsDigits(d)
    ensures !(CountryCode <= d) ==> NormalizePhone(d) == Success("+38" + d)
    ensures CountryCode <= d ==> NormalizePhone(d) == Failure(InvalidInput)
  {
    KeepPhoneCharsOfPhoneChars(d);
    assert d[0] != '+';
    assert "+" + CountryCode + d == "+38" + d;
  }

  /** A twelve-digit number that begins with the country code gets a leading `+`. */
  lemma NormalizeFullNumber(d: string)
    requires |d| == 12 && IsDigits(d) && CountryCode <= d
    ensures NormalizePhone(d) == Success("+" + d)
  {
    assert forall i | 0 <= i < |d| :: IsPhoneChar(d[i]);
    NormalizePhoneChars(d);
    NormalizeKeptCases(d);
  }

  lemma {:induction false} KeepPhoneCharsAppend(a: string, b: string)
    ensures KeepPhoneChars(a + b) == KeepPhoneChars(a) + KeepPhoneChars(b)
  {
    if a != [] {
      assert (a + b)[1..] == a[1..] + b;
      KeepPhoneCharsAppend(a[1..], b);
    } else {
      assert a + b == b;
    }
  }

  lemma {:induction false} KeepNoPhoneChars(s: string)
    requires forall i | 0 <= i < |s| :: !IsPhoneChar(s[i])
    ensures KeepPhoneChars(s) == []
  {
    if s != [] {
      KeepNoPhoneChars(s[1..]);
    }
  }

  /** Characters other than `+` and digits, wherever they stand, do not change the result. */
  lemma NormalizeIgnoresSeparators(a: string, sep: string, b: string)
    requires forall i | 0 <= i < |sep| :: !IsPhoneChar(sep[i])
    ensures NormalizePhone(a + sep + b) == NormalizePhone(a + b)
  {
    KeepNoPhoneChars(sep);
    KeepPhoneCharsAppend(a + sep, b);
    KeepPhoneCharsAppend(a, sep);
    KeepPhoneCharsAppend(a, b);
    assert KeepPhoneChars(a) + [] == KeepPhoneChars(a);
    assert KeepPhoneChars(a + sep + b) == KeepPhoneChars(a + b);
  }

  // ---------------------------------------------------------------- handlers

  predicate ValidContacts(contacts: Contacts) {
    forall name | name in contacts :: IsNormalizedPhone(contacts[name])
  }

  /** The reply of a handler and the phonebook it leaves behind. */
  datatype Handled = Handled(reply: string, contacts: Contacts)

  /**
   * `add_contact(*args)`: unpack exactly a name and a phone, refuse a name that is
   * already there (before looking at the phone), then store the normalised
   * phone; a wrong argument count or a phone that does not normalise gives the
   * usage line.
   */
  function AddContactEffect(contacts: Contacts, args: seq<string>): (h: Handled)
    ensures h.reply in {ContactAdded, AlreadyExists, AddUsage}
    ensures h.reply == AlreadyExists <==> |args| == 2 && args[0] in contacts
    ensures h.reply == ContactAdded <==>
              |args| == 2 && args[0] !in contacts && NormalizePhone(args[1]).Success?
    ensures h.reply == ContactAdded ==> h.contacts == contacts[args[0] := NormalizePhone(args[1]).value]
    ensures h.reply != ContactAdded ==> h.contacts == contacts
    ensures ValidContacts(contacts) ==> ValidContacts(h.contacts)
  {
    var (outcome, after) :=
      if |args| != 2 then (Failure(InvalidInput), contacts)
      else if args[0] in contacts then (Failure(ContactError(AlreadyExists)), contacts)
      else match NormalizePhone(args[1])
        case Failure(e) => (Failure(e), contacts)
        case Success(phone) => (Success(ContactAdded), contacts[args[0] := phone]);
    Handled(InputError(AddUsage, outcome), after)
  }

  /**
   * `change_contact(*args)`: unpack exactly a name and a phone, refuse a name that
   * is not there, then replace its phone with the normalised one; a wrong
   * argument count or a phone that does not normalise gives the usage line.
   */
  function ChangeContactEffect(contacts: Contacts, args: seq<string>): (h: Handled)
    ensures h.reply in {ContactUpdated, NoSuchContact, ChangeUsage}
    ensures h.reply == NoSuchContact <==> |args| == 2 && args[0] !in contacts
    ensures h.reply == ContactUpdated <==>
              |args| == 2 && args[0] in contacts && NormalizePhone(args[1]).Success?
    ensures h.reply == ContactUpdated ==> h.contacts == contacts[args[0] := NormalizePhone(args[1]).value]
    ensures h.reply != ContactUpdated ==> h.contacts == contacts
    ensures h.contacts.Keys == contacts.Keys
    ensures ValidContacts(contacts) ==> ValidContacts(h.contacts)
  {
    var (outcome, after) :=
      if |args| != 2 then (Failure(InvalidInput), contacts)
      else if args[0] !in contacts then (Failure(ContactError(NoSuchContact)), contacts)
      else match NormalizePhone(args[1])
        case Failure(e) => (Failure(e), contacts)
        case Success(phone) => (Success(ContactUpdated), contacts[args[0] := phone]);
    Handled(InputError(ChangeUsage, outcome), after)
  }

  /** `get_phone(*args)`: the stored number of exactly one name; the phonebook is only read. */
  function GetPhone(contacts: Contacts, args: seq<string>): (reply: string)
    ensures |args| != 1 ==> reply == PhoneUsage
    ensures |args| == 1 && args[0] !in contacts ==> reply == NoSuchContact
    ensures |args| == 1 && args[0] in contacts ==> reply == contacts[args[0]]
  {
    var outcome :=
      if |args| != 1 then Failure(InvalidInput)
      else if args[0] !in contacts then Failure(ContactError(NoSuchContact))
      else Success(contacts[args[0]]);
    InputError(PhoneUsage, outcome)
  }

  /** A successful add is seen by a later lookup of the same name. */
  lemma AddThenGetPhone(contacts: Contacts, name: string, phone: string)
    requires name !in contacts && NormalizePhone(phone).Success?
    ensures var h := AddContactEffect(contacts, [name, phone]);
              h.reply == ContactAdded && GetPhone(h.contacts, [name]) == NormalizePhone(phone).value
  {
  }

  /** Adding a name twice keeps the first number. */
  lemma AddTwiceKeepsFirst(contacts: Contacts, name: string, phone: string, other: string)
    requires name !in contacts && NormalizePhone(phone).Success?
    ensures var h := AddContactEffect(contacts, [name, phone]);
            var h' := AddContactEffect(h.contacts, [name, other]);
              h'.reply == AlreadyExists && h'.contacts == h.contacts
  {
  }

  /** A successful change is seen by a later lookup; every other name keeps its number. */
  lemma ChangeThenGetPhone(contacts: Contacts, name: string, phone: string, other: string)
    requires name in contacts && NormalizePhone(phone).Success? && other != name
    ensures var h := ChangeContactEffect(contacts, [name, phone]);
              && GetPhone(h.contacts, [name]) == NormalizePhone(phone).value
              && GetPhone(h.contacts, [other]) == GetPhone(contacts, [other])
  {
  }

  /** The module-level `contacts` dictionary and the handlers that change it in place. */
  class PhoneBook {
    var contacts: Contacts

    ghost predicate Valid()
      reads this
    {
      ValidContacts(contacts)
    }

    /** The empty dictionary the module starts with. */
    constructor ()
      ensures Valid() && contacts == map[]
    {
      contacts := map[];
    }

    method AddContact(args: seq<string>) returns (reply: string)
      requires Valid()
      modifies this
      ensures Valid()
      ensures Handled(reply, contacts) == AddContactEffect(old(contacts), args)
    {
      if |args| != 2 {
        return InputError(AddUsage, Failure(InvalidInput));
      }
      var name, phone := args[0], args[1];
      if name in contacts {
        return InputError(AddUsage, Failure(ContactError(AlreadyExists)));
      }
      var normalized := NormalizePhone(phone);
      if normalized.Failure? {
        return InputError(AddUsage, Failure(normalized.error));
      }
      contacts := contacts[name := normalized.value];
      return InputError(AddUsage, Success(ContactAdded));
    }

    method ChangeContact(args: seq<string>) returns (reply: string)
      requires Valid()
      modifies this
      ensures Valid()
      ensures Handled(reply, contacts) == ChangeContactEffect(old(contacts), args)
    {
      if |args| != 2 {
        return InputError(ChangeUsage, Failure(InvalidInput));
      }
      var name, phone := args[0], args[1];
      if name !in contacts {
        return InputError(ChangeUsage, Failure(ContactError(NoSuchContact)));
      }
      var normalized := NormalizePhone(phone);
      if normalized.Failure? {
        return InputError(ChangeUsage, Failure(normalized.error));
      }
      contacts := contacts[name := normalized.value];
      return InputError(ChangeUsage, Success(ContactUpdated));
    }

    /** `get_all_contacts`: the dictionary itself, every number in it normalised. */
    function GetAllContacts(): (all: Contacts)
      reads this
      requires Valid()
      ensures all == contacts
      ensures forall name | name in all :: IsNormalizedPhone(all[name])
    {
      contacts
    }
  }
}
