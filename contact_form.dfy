/**
 * The state the contact form's handlers change in place (script.js,
 * `initContactForm`): which form groups carry the `error` class and the
 * `.error-message` elements inside them, the submit button's label and
 * `disabled` flag, the character counter, the submission timer of 2000 ms
 * and the success toasts appended to the page. The timer is one explicit
 * step, Complete; the 5000 ms removal of a toast is another, ExpireSuccessToast.
 */
module ContactForm {
  import opened Wrappers
  import opened JsText
  import opened Validation

  const BusyLabel := "<i class=\"fas fa-spinner fa-spin\"></i> Sending Message..."

  /** The callback scheduled by an accepted submission, with the values it captured. */
  datatype Submission = Submission(originalLabel: string, name: string)

  /**
   * The sentence of the success toast's paragraph, addressed to the submitted
   * name. It is markup: the name goes into the `innerHTML` template unescaped.
   */
  function SuccessText(name: string): string
  {
    "Thank you, " + name + "! I've received your message and will get back to you within 24 hours."
  }

  /**
   * The error messages after `showFieldError(f, m)` has run for each `m` of
   * `es` in turn: every call replaces the group's message, so the last one stays.
   */
  function ShowAll(groups: map<Field, string>, f: Field, es: seq<string>): map<Field, string>
  {
    if es != [] then groups[f := es[|es| - 1]] else groups
  }

  /** The error messages after the check of field `f` has run over `groups`. */
  ghost function AfterCheck(groups: map<Field, string>, d: FormData, f: Field): map<Field, string>
  {
    ShowAll(groups, f, FieldErrors(d, f))
  }

  /** The error messages after the checks of all four fields, in the handler's order, have run over `before`. */
  ghost function AfterAllChecks(before: map<Field, string>, d: FormData): map<Field, string>
  {
    AfterCheck(AfterCheck(AfterCheck(AfterCheck(before, d, Name), d, Email), d, Subject), d, Message)
  }

  /** Over four different fields, each group ends with its own last message, or keeps what it had. */
  lemma ShowAllFour(before: map<Field, string>, f: Field, name: seq<string>, email: seq<string>,
                    subject: seq<string>, message: seq<string>)
    ensures var es := match f
                      case Name => name
                      case Email => email
                      case Subject => subject
                      case Message => message;
      var after := ShowAll(ShowAll(ShowAll(ShowAll(before, Name, name), Email, email), Subject, subject), Message, message);
      (es != [] ==> f in after && after[f] == es[|es| - 1]) &&
      (es == [] ==> (f in after <==> f in before) && (f in before ==> after[f] == before[f]))
  {
  }

  /** A failing field shows the one message of its check; any other field keeps what it had, or nothing. */
  lemma AfterAllChecksAt(before: map<Field, string>, d: FormData, f: Field)
    ensures f in Failing(d) ==> f in AfterAllChecks(before, d) && [AfterAllChecks(before, d)[f]] == FieldErrors(d, f)
    ensures f !in Failing(d) ==>
      (f in AfterAllChecks(before, d) <==> f in before) &&
      (f in before ==> AfterAllChecks(before, d)[f] == before[f])
  {
    FailingMeaning(d, f);
    ShowAllFour(before, f, FieldErrors(d, Name), FieldErrors(d, Email), FieldErrors(d, Subject), FieldErrors(d, Message));
    assert |FieldErrors(d, f)| <= 1;
  }

  class Form {
    /** The fields whose form group has the `error` class. */
    var marked: set<Field>
    /**
     * The text of the `.error-message` element in each field's form group, for
     * the groups that have one. showFieldError removes the existing element
     * before it appends a new one, so a group never holds two.
     */
    var errorMessages: map<Field, string>
    /** The submit button's `innerHTML` and `disabled` flag. */
    var buttonLabel: string
    var disabled: bool
    /** The submission timer, while it is pending. */
    var pending: Option<Submission>
    /** The number the counter shows, and its colour. */
    var counter: nat
    var counterLevel: Level
    /** The paragraph markup of the success toasts on the page, oldest first, with the name put in unescaped. */
    var successToasts: seq<string>

    /**
     * A marked group shows an error message; the button is disabled exactly
     * while a submission is pending, and then shows the busy label.
     */
    ghost predicate Valid()
      reads this
    {
      marked <= errorMessages.Keys &&
      (disabled <==> pending.Some?) &&
      (pending.Some? ==> buttonLabel == BusyLabel)
    }

    constructor (initialLabel: string)
      ensures Valid()
      ensures marked == {} && errorMessages == map[]
      ensures buttonLabel == initialLabel && !disabled && pending.None?
      ensures counter == 0 && counterLevel == Normal && successToasts == []
    {
      marked := {};
      errorMessages := map[];
      buttonLabel := initialLabel;
      disabled := false;
      pending := None;
      counter := 0;
      counterLevel := Normal;
      successToasts := [];
    }

    /** The `input` handler of the message box: shows the untrimmed length and colours it. */
    method MessageInput(value: string)
      requires Valid()
      modifies this
      ensures Valid()
      ensures counter == Utf16Length(value) && counterLevel == Classify(Utf16Length(value))
      ensures marked == old(marked) && errorMessages == old(errorMessages)
      ensures buttonLabel == old(buttonLabel) && disabled == old(disabled) && pending == old(pending)
      ensures successToasts == old(successToasts)
    {
      var currentLength := Utf16Length(value);
      counter := currentLength;
      if currentLength > MaxLength {
        counterLevel := Error;
      } else if currentLength > MaxLength * 8 / 10 {
        counterLevel := Warn;
      } else {
        counterLevel := Normal;
      }
    }

    /** `showFieldError`: marks the group, removes its existing message and appends the new one. */
    method ShowFieldError(f: Field, message: string)
      requires Valid()
      modifies this
      ensures Valid()
      ensures marked == old(marked) + {f}
      ensures errorMessages == old(errorMessages)[f := message]
      ensures buttonLabel == old(buttonLabel) && disabled == old(disabled) && pending == old(pending)
      ensures counter == old(counter) && counterLevel == old(counterLevel)
      ensures successToasts == old(successToasts)
    {
      marked := marked + {f};
      errorMessages := errorMessages[f := message];
    }

    /**
     * The `if` blocks of the `submit` handler for field `f`, over the trimmed
     * entries `d`: each failing check calls showFieldError with its message.
     * The field fails exactly when FieldErrors lists a message for it.
     */
    method CheckField(d: FormData, f: Field) returns (failed: bool)
      requires Valid()
      modifies this
      ensures Valid()
      ensures failed <==> FieldErrors(d, f) != []
      ensures marked == old(marked) + FailingOne(d, f)
      ensures errorMessages == AfterCheck(old(errorMessages), d, f)
      ensures buttonLabel == old(buttonLabel) && disabled == old(disabled) && pending == old(pending)
      ensures counter == old(counter) && counterLevel == old(counterLevel)
      ensures successToasts == old(successToasts)
    {
      failed := false;
      match f
      case Name =>
        var name := d.name;
        if Falsy(name) || Utf16Length(name.value) < 2 {
          ShowFieldError(Name, NameMessage);
          failed := true;
        }
      case Email =>
        var email := d.email;
        if Falsy(email) {
          ShowFieldError(Email, EmailRequiredMessage);
          failed := true;
        } else if !IsValidEmail(email.value) {
          ShowFieldError(Email, EmailInvalidMessage);
          failed := true;
          assert FieldErrors(d, Email) == [EmailInvalidMessage];
        }
      case Subject =>
        var subject := d.subject;
        if Falsy(subject) || Utf16Length(subject.value) < 5 {
          ShowFieldError(Subject, SubjectMessage);
          failed := true;
        }
      case Message =>
        var message := d.message;
        if Falsy(message) || Utf16Length(message.value) < 20 {
          ShowFieldError(Message, MessageTooShortMessage);
          failed := true;
          assert FieldErrors(d, Message) == [MessageTooShortMessage];
        }
        if !Falsy(message) && Utf16Length(message.value) > 1000 {
          ShowFieldError(Message, MessageTooLongMessage);
          failed := true;
          assert FieldErrors(d, Message) == [MessageTooLongMessage];
        }
    }

    /**
     * The checking part of the `submit` handler. The error classes are
     * cleared first (the old message elements stay), then every field is
     * checked, none skipped after an earlier failure; afterwards the marked
     * fields are exactly the failing ones, each showing the message of its
     * check, and `hasErrors` says whether there was one.
     */
    method CheckFields(d: FormData) returns (hasErrors: bool)
      requires Valid()
      modifies this
      ensures Valid()
      ensures hasErrors <==> Failing(d) != {}
      ensures marked == Failing(d)
      ensures errorMessages == AfterAllChecks(old(errorMessages), d)
      ensures buttonLabel == old(buttonLabel) && disabled == old(disabled) && pending == old(pending)
      ensures counter == old(counter) && counterLevel == old(counterLevel)
      ensures successToasts == old(successToasts)
    {
      marked := {};
      hasErrors := false;

      var failed := CheckField(d, Name);
      hasErrors := hasErrors || failed;

      failed := CheckField(d, Email);
      hasErrors := hasErrors || failed;

      failed := CheckField(d, Subject);
      hasErrors := hasErrors || failed;

      failed := CheckField(d, Message);
      hasErrors := hasErrors || failed;

      assert {} + FailingOne(d, Name) == FailingOne(d, Name);
      FailingEmptyIff(d);
    }

    /**
     * The `submit` handler: trims the entries, checks them, and on any
     * failure returns with the button untouched; otherwise disables the
     * button, shows the busy label and starts the timer, which captures the
     * original label and the trimmed name. A disabled submit button delivers
     * no submit event, hence the requires.
     */
    method Submit(raw: FormData)
      requires Valid() && !disabled
      modifies this
      ensures Valid()
      ensures marked == Failing(TrimmedData(raw))
      ensures errorMessages == AfterAllChecks(old(errorMessages), TrimmedData(raw))
      ensures Failing(TrimmedData(raw)) != {} ==>
        buttonLabel == old(buttonLabel) && !disabled && pending.None?
      ensures Failing(TrimmedData(raw)) == {} ==>
        buttonLabel == BusyLabel && disabled &&
        pending == Some(Submission(old(buttonLabel), TrimmedData(raw).name.value))
      ensures counter == old(counter) && counterLevel == old(counterLevel)
      ensures successToasts == old(successToasts)
    {
      var d := TrimmedData(raw);
      var hasErrors := CheckFields(d);
      if hasErrors {
        return;
      }

      FailingMeaning(d, Name);
      var originalText := buttonLabel;
      buttonLabel := BusyLabel;
      disabled := true;
      pending := Some(Submission(originalText, d.name.value));
    }

    /**
     * The 2000 ms callback: shows the success toast for the captured name,
     * sets the counter to 0 (its colour stays as it was) and restores the
     * button's original buttonLabel and enabled state.
     */
    method Complete()
      requires Valid() && pending.Some?
      modifies this
      ensures Valid()
      ensures successToasts == old(successToasts) + [SuccessText(old(pending).value.name)]
      ensures counter == 0 && counterLevel == old(counterLevel)
      ensures buttonLabel == old(pending).value.originalLabel && !disabled && pending.None?
      ensures marked == old(marked) && errorMessages == old(errorMessages)
    {
      var submission := pending.value;
      successToasts := successToasts + [SuccessText(submission.name)];
      counter := 0;
      buttonLabel := submission.originalLabel;
      disabled := false;
      pending := None;
    }

    /** The removal timer of the oldest success toast fires; toasts are not limited to one. */
    method ExpireSuccessToast()
      requires Valid() && |successToasts| > 0
      modifies this
      ensures Valid()
      ensures successToasts == old(successToasts)[1..]
      ensures marked == old(marked) && errorMessages == old(errorMessages)
      ensures buttonLabel == old(buttonLabel) && disabled == old(disabled) && pending == old(pending)
      ensures counter == old(counter) && counterLevel == old(counterLevel)
    {
      successToasts := successToasts[1..];
    }
  }

  /**
   * An accepted submission followed by its timer leaves the button as it was
   * before, the counter at 0 and one more success toast, for the trimmed name.
   */
  method SubmitAndComplete(form: Form, raw: FormData)
    requires form.Valid() && !form.disabled
    requires Failing(TrimmedData(raw)) == {}
    modifies form
    ensures form.Valid()
    ensures form.buttonLabel == old(form.buttonLabel) && !form.disabled && form.pending.None?
    ensures form.counter == 0 && form.marked == {}
    ensures form.successToasts == old(form.successToasts) + [SuccessText(TrimmedData(raw).name.value)]
  {
    form.Submit(raw);
    form.Complete();
  }

  /** A one-character name is marked and no timer starts, whatever the other fields hold. */
  method ShortNameBlocksSubmission(form: Form, email: Option<string>, subject: Option<string>, message: Option<string>)
    requires form.Valid() && !form.disabled
    modifies form
    ensures form.Valid()
    ensures Name in form.marked && form.errorMessages[Name] == NameMessage
    ensures form.pending.None? && !form.disabled && form.buttonLabel == old(form.buttonLabel)
  {
    var raw := FormData(Some("A"), email, subject, message);
    assert Trim("A") == "A" by {
      TrimKeepsTrimmed("A");
    }
    assert Name in Failing(TrimmedData(raw));
    form.Submit(raw);
  }
}
