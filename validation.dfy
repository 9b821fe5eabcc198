/**
 * The contact form's field checks (script.js, the submit handler of
 * `initContactForm`, and `isValidEmail`) and the classifier behind the
 * message character counter. Everything here is a pure function of the
 * values the form holds; marking fields and the button are in ContactForm.
 */
module Validation {
  import opened Wrappers
  import opened JsText

  datatype Field = Name | Email | Subject | Message

  const AllFields: set<Field> := {Name, Email, Subject, Message}

  /** What `formData.get(field)` yields for the four checked fields: `None` stands for `null`. */
  datatype FormData = FormData(name: Option<string>, email: Option<string>,
                               subject: Option<string>, message: Option<string>)

  const NameMessage := "Please enter a valid name (at least 2 characters)"
  const EmailRequiredMessage := "Email is required"
  const EmailInvalidMessage := "Please enter a valid email address"
  const SubjectMessage := "Please enter a subject (at least 5 characters)"
  const MessageTooShortMessage := "Please enter a detailed message (at least 20 characters)"
  const MessageTooLongMessage := "Message is too long (maximum 1000 characters)"

  /** `value?.trim()`: `null` stays `null`, a string is trimmed. */
  function Trimmed(v: Option<string>): Option<string>
  {
    match v
    case None => None
    case Some(s) => Some(Trim(s))
  }

  /** The form entries as the handler holds them, each passed through `?.trim()`. */
  function TrimmedData(raw: FormData): FormData
  {
    FormData(Trimmed(raw.name), Trimmed(raw.email), Trimmed(raw.subject), Trimmed(raw.message))
  }

  /** `!value` for a string-or-null: true for `null` and for the empty string. */
  predicate Falsy(v: Option<string>)
  {
    v.None? || v.value == ""
  }

  // ---------------------------------------------------------------------------
  // The email pattern /^[^\s@]+@[^\s@]+\.[^\s@]+$/

  /** `[^\s@]`: a character that is neither whitespace nor `@`. */
  predicate IsPlain(c: char)
  {
    !IsWhitespace(c) && c != '@'
  }

  /** `[^\s@]*`: every character is plain. */
  predicate AllPlain(s: string)
  {
    forall k :: 0 <= k < |s| ==> IsPlain(s[k])
  }

  /**
   * The regular expression read as a decomposition: `s` is `local @ host . tld`
   * with the three parts non-empty and made of plain characters. The `@` sits
   * at `at`, the separating dot at `dot`.
   */
  ghost predicate MatchesAt(s: string, at: int, dot: int)
  {
    0 < at && at + 1 < dot && dot + 1 < |s| && s[at] == '@' && s[dot] == '.' &&
    AllPlain(s[..at]) && AllPlain(s[at + 1..dot]) && AllPlain(s[dot + 1..])
  }

  ghost predicate MatchesEmailPattern(s: string)
  {
    exists at, dot :: MatchesAt(s, at, dot)
  }

  /**
   * The email test as a string predicate: no whitespace, exactly one `@`
   * (the first one has none after it), a non-empty part before it, and a
   * domain after it with a `.` that is neither its first nor its last character.
   */
  predicate IsValidEmail(s: string)
  {
    var at := IndexOf(s, '@');
    NoWhitespace(s) && 0 < at < |s| && '@' !in s[at + 1..] &&
    var domain := s[at + 1..];
    |domain| >= 3 && '.' in domain[1..|domain| - 1]
  }

  /** The string predicate accepts exactly the strings the regular expression matches. */
  lemma EmailPredicateMatchesPattern(s: string)
    ensures IsValidEmail(s) <==> MatchesEmailPattern(s)
  {
    if IsValidEmail(s) {
      ValidEmailMatches(s);
    }
    if MatchesEmailPattern(s) {
      var at, dot :| MatchesAt(s, at, dot);
      PatternIsValidEmail(s, at, dot);
    }
  }

  lemma ValidEmailMatches(s: string)
    requires IsValidEmail(s)
    ensures MatchesEmailPattern(s)
  {
    var at := IndexOf(s, '@');
    var domain := s[at + 1..];
    var inner := domain[1..|domain| - 1];
    var j :| 0 <= j < |inner| && inner[j] == '.';
    var dot := at + 2 + j;
    assert s[dot] == '.';
    forall k | 0 <= k < |s| && k != at ensures IsPlain(s[k]) {
      assert !IsWhitespace(s[k]);
      if k > at {
        assert s[k] == domain[k - at - 1];
      }
    }
    assert AllPlain(s[..at]) by {
      forall k | 0 <= k < at ensures IsPlain(s[..at][k]) {
        assert s[..at][k] == s[k];
      }
    }
    var host, tld := s[at + 1..dot], s[dot + 1..];
    assert AllPlain(host) by {
      forall k | 0 <= k < |host| ensures IsPlain(host[k]) {
        assert host[k] == s[at + 1 + k];
      }
    }
    assert AllPlain(tld) by {
      forall k | 0 <= k < |tld| ensures IsPlain(tld[k]) {
        assert tld[k] == s[dot + 1 + k];
      }
    }
    assert MatchesAt(s, at, dot);
  }

  lemma PatternIsValidEmail(s: string, at: int, dot: int)
    requires MatchesAt(s, at, dot)
    ensures IsValidEmail(s)
  {
    forall k | 0 <= k < at ensures s[k] != '@' && !IsWhitespace(s[k]) {
      assert s[k] == s[..at][k];
    }
    assert IndexOf(s, '@') == at;
    forall k | at < k < |s| && k != dot ensures s[k] != '@' && !IsWhitespace(s[k]) {
      if k < dot {
        assert s[k] == s[at + 1..dot][k - at - 1];
      } else {
        assert s[k] == s[dot + 1..][k - dot - 1];
      }
    }
    var domain := s[at + 1..];
    assert '@' !in domain by {
      forall k | 0 <= k < |domain| ensures domain[k] != '@' {
        assert domain[k] == s[at + 1 + k];
      }
    }
    assert domain[1..|domain| - 1][dot - at - 2] == '.';
  }

  /** Examples: a plain address is accepted; an empty host, a space, a second `@` are not. */
  lemma EmailAccepted()
    ensures MatchesEmailPattern("a@b.co")
  {
    var s := "a@b.co";
    assert MatchesAt(s, 1, 3) by {
      assert s[..1] == "a" && s[2..3] == "b" && s[4..] == "co";
    }
  }

  lemma EmailEmptyHostRejected()
    ensures !MatchesEmailPattern("a@.co")
  {
    var s := "a@.co";
    EmailPredicateMatchesPattern(s);
    assert IndexOf(s, '@') == 1;
    assert s[2..] == ".co" && ".co"[1..2] == "c";
  }

  lemma EmailWithSpaceRejected()
    ensures !MatchesEmailPattern("a b@c.d")
  {
    var s := "a b@c.d";
    EmailPredicateMatchesPattern(s);
    assert IsWhitespace(s[1]);
  }

  lemma EmailTwoAtsRejected()
    ensures !MatchesEmailPattern("a@b@c.d")
  {
    var s := "a@b@c.d";
    EmailPredicateMatchesPattern(s);
    assert IndexOf(s, '@') == 1;
    assert s[2..][1] == '@';
  }

  // ---------------------------------------------------------------------------
  // Field checks: the message each failing `if` passes to showFieldError.

  /** `!name || name.length < 2`. */
  function NameError(name: Option<string>): (e: Option<string>)
    ensures e.Some? <==> name.None? || Utf16Length(name.value) < 2
    ensures e.Some? ==> e.value == NameMessage
  {
    if Falsy(name) || Utf16Length(name.value) < 2 then Some(NameMessage) else None
  }

  /** `!email` first; only a present value is tested against the pattern. */
  function EmailError(email: Option<string>): (e: Option<string>)
  {
    if Falsy(email) then Some(EmailRequiredMessage)
    else if !IsValidEmail(email.value) then Some(EmailInvalidMessage)
    else None
  }

  /**
   * An absent or empty email gets exactly "Email is required"; a present one
   * is accepted exactly when it matches the pattern, and otherwise gets the
   * invalid-address message.
   */
  lemma EmailErrorMeaning(email: Option<string>)
    ensures Falsy(email) ==> EmailError(email) == Some(EmailRequiredMessage)
    ensures !Falsy(email) ==>
      EmailError(email) == if MatchesEmailPattern(email.value) then None else Some(EmailInvalidMessage)
  {
    if !Falsy(email) {
      EmailPredicateMatchesPattern(email.value);
    }
  }

  /** `!subject || subject.length < 5`. */
  function SubjectError(subject: Option<string>): (e: Option<string>)
    ensures e.Some? <==> subject.None? || Utf16Length(subject.value) < 5
    ensures e.Some? ==> e.value == SubjectMessage
  {
    if Falsy(subject) || Utf16Length(subject.value) < 5 then Some(SubjectMessage) else None
  }

  /**
   * The two independent checks on the message, in source order: "too short"
   * for `!message || message.length < 20`, "too long" for
   * `message && message.length > 1000`. At most one of them fires, and one
   * fires exactly when the value is absent or its length lies outside 20..1000.
   */
  function MessageErrors(message: Option<string>): (es: seq<string>)
    ensures |es| <= 1
    ensures es != [] <==> message.None? || !(20 <= Utf16Length(message.value) <= 1000)
    ensures es != [] ==> es[0] == (if message.None? || Utf16Length(message.value) < 20
                                   then MessageTooShortMessage else MessageTooLongMessage)
  {
    (if Falsy(message) || Utf16Length(message.value) < 20 then [MessageTooShortMessage] else []) +
    (if !Falsy(message) && Utf16Length(message.value) > 1000 then [MessageTooLongMessage] else [])
  }

  function OptionToSeq(o: Option<string>): seq<string>
  {
    if o.None? then [] else [o.value]
  }

  /** Every message showFieldError receives for field `f`, in call order, for trimmed entries `data`. */
  function FieldErrors(data: FormData, f: Field): (es: seq<string>)
    ensures |es| <= 1
  {
    match f
    case Name => OptionToSeq(NameError(data.name))
    case Email => OptionToSeq(EmailError(data.email))
    case Subject => OptionToSeq(SubjectError(data.subject))
    case Message => MessageErrors(data.message)
  }

  /** The field `f` as a one-element set when it fails, the empty set otherwise. */
  function FailingOne(data: FormData, f: Field): set<Field>
  {
    Singleton(f, FieldErrors(data, f) != [])
  }

  /** The fields that fail: every field is checked, none is skipped after an earlier failure. */
  function Failing(data: FormData): set<Field>
  {
    FailingOne(data, Name) + FailingOne(data, Email) + FailingOne(data, Subject) + FailingOne(data, Message)
  }

  /** Some field fails exactly when one of the four checks reports a message. */
  lemma FailingEmptyIff(data: FormData)
    ensures Failing(data) == {} <==>
      FieldErrors(data, Name) == [] && FieldErrors(data, Email) == [] &&
      FieldErrors(data, Subject) == [] && FieldErrors(data, Message) == []
  {
    if FieldErrors(data, Name) != [] {
      assert Name in Failing(data);
    }
    if FieldErrors(data, Email) != [] {
      assert Email in Failing(data);
    }
    if FieldErrors(data, Subject) != [] {
      assert Subject in Failing(data);
    }
    if FieldErrors(data, Message) != [] {
      assert Message in Failing(data);
    }
  }

  /** The field `f` as a one-element set when `fails` holds. */
  function Singleton(f: Field, fails: bool): set<Field>
  {
    if fails then {f} else {}
  }

  lemma FourSingletons(f: Field, name: bool, email: bool, subject: bool, message: bool)
    ensures f in Singleton(Name, name) + Singleton(Email, email) + Singleton(Subject, subject) + Singleton(Message, message)
      <==> match f
           case Name => name
           case Email => email
           case Subject => subject
           case Message => message
  {
  }

  /** A field is among the failing ones exactly when some check on it fails. */
  lemma FailingMeaning(data: FormData, f: Field)
    ensures f in Failing(data) <==> FieldErrors(data, f) != []
  {
    FourSingletons(f, FieldErrors(data, Name) != [], FieldErrors(data, Email) != [],
                   FieldErrors(data, Subject) != [], FieldErrors(data, Message) != []);
  }

  /**
   * The form is accepted exactly when the trimmed name has at least 2 code
   * units, the trimmed email matches the pattern, the trimmed subject has at
   * least 5 and the trimmed message between 20 and 1000.
   */
  lemma AcceptedIff(d: FormData)
    ensures Failing(d) == {} <==>
        d.name.Some? && Utf16Length(d.name.value) >= 2 &&
        d.email.Some? && MatchesEmailPattern(d.email.value) &&
        d.subject.Some? && Utf16Length(d.subject.value) >= 5 &&
        d.message.Some? && 20 <= Utf16Length(d.message.value) <= 1000
  {
    FailingMeaning(d, Name);
    FailingMeaning(d, Email);
    FailingMeaning(d, Subject);
    FailingMeaning(d, Message);
    EmailErrorMeaning(d.email);
  }

  /** A value of exactly 20 or 1000 code units is accepted; 19 and 1001 are not. */
  lemma MessageLengthBounds(message: string)
    ensures Utf16Length(message) == 20 || Utf16Length(message) == 1000 ==> MessageErrors(Some(message)) == []
    ensures Utf16Length(message) == 19 ==> MessageErrors(Some(message)) == [MessageTooShortMessage]
    ensures Utf16Length(message) == 1001 ==> MessageErrors(Some(message)) == [MessageTooLongMessage]
  {
  }

  // ---------------------------------------------------------------------------
  // The character counter beside the message box.

  /** Colour of the counter and border of the box: default, warning yellow or error red. */
  datatype Level = Normal | Warn | Error

  const MaxLength := 1000

  /**
   * `currentLength > maxLength` is an error; `currentLength > maxLength * 0.8`,
   * that is above 800, a warning; anything else is normal.
   */
  function Classify(length: nat): (l: Level)
  {
    if length > MaxLength then Error
    else if length > MaxLength * 8 / 10 then Warn
    else Normal
  }

  function Severity(l: Level): nat
  {
    match l
    case Normal => 0
    case Warn => 1
    case Error => 2
  }

  /** The three bands partition the lengths at 800 and 1000, both bounds belonging to the lower band. */
  lemma ClassifyBands(length: nat)
    ensures Classify(length) == Error <==> length > 1000
    ensures Classify(length) == Warn <==> 800 < length <= 1000
    ensures Classify(length) == Normal <==> length <= 800
  {
  }

  /** A longer text is never shown less severely than a shorter one. */
  lemma ClassifyMonotone(shorter: nat, longer: nat)
    requires shorter <= longer
    ensures Severity(Classify(shorter)) <= Severity(Classify(longer))
  {
  }

  /**
   * The counter is advisory: it measures the untrimmed text, the check the
   * trimmed one. A message whose text passes, followed by any run of
   * whitespace, still passes, although the counter shows it at the error
   * level once the padding takes it past 1000 code units.
   */
  lemma CounterDoesNotBlock(text: string, pad: string)
    requires 20 <= Utf16Length(text) <= 1000
    requires !IsWhitespace(text[0]) && !IsWhitespace(text[|text| - 1])
    requires forall k :: 0 <= k < |pad| ==> IsWhitespace(pad[k])
    ensures MessageErrors(Trimmed(Some(text + pad))) == []
    ensures Utf16Length(text) + Utf16Length(pad) > 1000 ==> Classify(Utf16Length(text + pad)) == Error
  {
    TrimDropsTrailingBlanks(text, pad);
    Utf16LengthAppend(text, pad);
  }
}
