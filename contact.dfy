/** The contact form (assets/js/modules/contact.js): field validation with the
    first failing rule winning, the e-mail shape check, and the submit flow
    that brackets a send between entering and leaving the button's loading
    state. */
module Contact {

  /** The characters of the regular-expression class `\s`, which are also the
      ones `String.prototype.trim` strips: ECMAScript WhiteSpace and
      LineTerminator. */
  predicate IsSpace(c: char) {
    || c == ' ' || c == '\t' || c == '\n' || c == '\r' || c == '\U{B}' || c == '\U{C}'
    || c == '\U{A0}' || c == '\U{1680}' || ('\U{2000}' <= c <= '\U{200A}')
    || c == '\U{2028}' || c == '\U{2029}' || c == '\U{202F}' || c == '\U{205F}'
    || c == '\U{3000}' || c == '\U{FEFF}'
  }

  /** Every character lies in the class `[^\s@]`. */
  predicate Plain(s: string) {
    forall i :: 0 <= i < |s| ==> s[i] != '@' && !IsSpace(s[i])
  }

  /** Some character is not whitespace. */
  predicate HasVisible(s: string) {
    exists i :: 0 <= i < |s| && !IsSpace(s[i])
  }

  // ---------------------------------------------------------------------------
  // isValidEmail

  /** The pattern `^[^\s@]+@[^\s@]+\.[^\s@]+$` read literally: three non-empty
      runs of plain characters joined by '@' and then by '.'. */
  ghost predicate MatchesEmailPattern(e: string) {
    exists local: string, host: string, tld: string
      {:trigger Plain(local), Plain(host), Plain(tld)} ::
      && e == local + "@" + host + "." + tld
      && |local| > 0 && |host| > 0 && |tld| > 0
      && Plain(local) && Plain(host) && Plain(tld)
  }

  /** The domain after the '@': plain, with a '.' that is neither its first
      nor its last character. */
  predicate DottedDomain(d: string) {
    Plain(d) && exists j :: 0 < j < |d| - 1 && d[j] == '.'
  }

  /** `isValidEmail`: a non-empty plain local part, one '@', a dotted domain. */
  predicate IsValidEmail(e: string) {
    exists k :: 0 < k < |e| && e[k] == '@' && Plain(e[..k]) && DottedDomain(e[k + 1..])
  }

  /** The decision procedure accepts exactly the strings the regular
      expression matches. */
  lemma EmailPatternEquivalence(e: string)
    ensures IsValidEmail(e) <==> MatchesEmailPattern(e)
  {
    if IsValidEmail(e) {
      ValidEmailMatches(e);
    }
    if MatchesEmailPattern(e) {
      var local: string, host: string, tld: string :|
        && e == local + "@" + host + "." + tld
        && |local| > 0 && |host| > 0 && |tld| > 0
        && Plain(local) && Plain(host) && Plain(tld);
      PatternPartsValid(local, host, tld);
    }
  }

  /** A slice of a plain string is plain. */
  lemma PlainSlice(s: string, lo: nat, hi: nat)
    requires Plain(s) && lo <= hi <= |s|
    ensures Plain(s[lo..hi])
  {
    forall i | 0 <= i < hi - lo
      ensures s[lo..hi][i] == s[lo + i]
    {
    }
  }

  /** Plain strings joined by a plain character stay plain. */
  lemma PlainJoin(a: string, c: char, b: string)
    requires Plain(a) && Plain(b) && c != '@' && !IsSpace(c)
    ensures Plain(a + [c] + b)
  {
    var s := a + [c] + b;
    forall i | 0 <= i < |s|
      ensures s[i] != '@' && !IsSpace(s[i])
    {
      if i < |a| {
        assert s[i] == a[i];
      } else if i > |a| {
        assert s[i] == b[i - |a| - 1];
      } else {
        assert s[i] == c;
      }
    }
  }

  lemma ValidEmailMatches(e: string)
    requires IsValidEmail(e)
    ensures MatchesEmailPattern(e)
  {
    var k :| 0 < k < |e| && e[k] == '@' && Plain(e[..k]) && DottedDomain(e[k + 1..]);
    var d := e[k + 1..];
    var j :| 0 < j < |d| - 1 && d[j] == '.';
    var local, host, tld := e[..k], d[..j], d[j + 1..];
    PlainSlice(d, 0, j);
    PlainSlice(d, j + 1, |d|);
    EmailPieces(e, k, j);
    PatternWitness(e, local, host, tld);
  }

  /** Three pieces that fit the pattern make their concatenation match it. */
  lemma PatternWitness(e: string, local: string, host: string, tld: string)
    requires e == local + "@" + host + "." + tld
    requires |local| > 0 && |host| > 0 && |tld| > 0
    requires Plain(local) && Plain(host) && Plain(tld)
    ensures MatchesEmailPattern(e)
  {
  }

  /** Cutting an address at its '@' and at a '.' of its domain and gluing
      the pieces back gives the address. */
  lemma EmailPieces(e: string, k: nat, j: nat)
    requires k < |e| && e[k] == '@' && j < |e[k + 1..]| && e[k + 1..][j] == '.'
    ensures e[k + 1..][0..j] == e[k + 1..][..j]
    ensures e[k + 1..][j + 1..|e[k + 1..]|] == e[k + 1..][j + 1..]
    ensures e == e[..k] + "@" + e[k + 1..][..j] + "." + e[k + 1..][j + 1..]
  {
    var d := e[k + 1..];
    assert e == e[..k] + [e[k]] + d;
    assert d == d[..j] + [d[j]] + d[j + 1..];
  }

  lemma PatternPartsValid(local: string, host: string, tld: string)
    requires |local| > 0 && |host| > 0 && |tld| > 0
    requires Plain(local) && Plain(host) && Plain(tld)
    ensures IsValidEmail(local + "@" + host + "." + tld)
  {
    var e := local + "@" + host + "." + tld;
    var k := |local|;
    var d := host + "." + tld;
    assert e == local + "@" + d;
    assert e[..k] == local;
    assert e[k + 1..] == d;
    assert d[|host|] == '.';
    PlainJoin(host, '.', tld);
    assert d == host + ['.'] + tld;
    assert DottedDomain(d);
  }

  /** An accepted address holds exactly one '@', no whitespace at all, and
      therefore survives trimming unchanged and non-empty. */
  lemma ValidEmailShape(e: string)
    requires IsValidEmail(e)
    ensures multiset(e)['@'] == 1
    ensures forall i :: 0 <= i < |e| ==> !IsSpace(e[i])
    ensures Trim(e) == e && e != ""
  {
    var k :| 0 < k < |e| && e[k] == '@' && Plain(e[..k]) && DottedDomain(e[k + 1..]);
    var local, d := e[..k], e[k + 1..];
    CutAt(e, k);
    OneAt(local, d);
    NoSpaceAround(local, '@', d);
    TrimOfUnspaced(e);
  }

  lemma CutAt(e: string, k: nat)
    requires k < |e|
    ensures e == e[..k] + [e[k]] + e[k + 1..]
  {
  }

  /** Two plain strings around an '@' hold exactly one '@'. */
  lemma OneAt(a: string, b: string)
    requires Plain(a) && Plain(b)
    ensures multiset(a + ['@'] + b)['@'] == 1
  {
    assert '@' !in a && '@' !in b;
    assert multiset(a + ['@'] + b) == multiset(a) + multiset(['@']) + multiset(b);
  }

  /** A string made of plain parts around a non-space character has no
      whitespace anywhere. */
  lemma NoSpaceAround(a: string, c: char, b: string)
    requires Plain(a) && Plain(b) && !IsSpace(c)
    ensures forall i :: 0 <= i < |a + [c] + b| ==> !IsSpace((a + [c] + b)[i])
  {
    var s := a + [c] + b;
    forall i | 0 <= i < |s|
      ensures !IsSpace(s[i])
    {
      if i < |a| {
        assert s[i] == a[i];
      } else if i > |a| {
        assert s[i] == b[i - |a| - 1];
      }
    }
  }

  /** Trimming a non-empty string without whitespace at its ends changes nothing. */
  lemma TrimOfUnspaced(s: string)
    requires s != "" && !IsSpace(s[0]) && !IsSpace(s[|s| - 1])
    ensures Trim(s) == s
  {
    assert TrimStart(s) == s;
  }

  /** The examples every reader of the pattern expects. */
  lemma EmailExamples()
    ensures !IsValidEmail("foo") && !IsValidEmail("foo@") && !IsValidEmail("foo@bar")
    ensures IsValidEmail("a@b.co")
  {
    var e := "a@b.co";
    assert e[..1] == "a" && e[2..] == "b.co";
    assert "b.co"[1] == '.';
    var s := "foo@bar";
    assert s[4..] == "bar";
  }

  // ---------------------------------------------------------------------------
  // String.prototype.trim

  /** `trimStart`: drops leading whitespace; what is left starts visibly. */
  function TrimStart(s: string): (r: string)
    ensures |r| <= |s|
    ensures r != "" ==> !IsSpace(r[0])
  {
    if |s| > 0 && IsSpace(s[0]) then TrimStart(s[1..]) else s
  }

  /** `trimEnd`: drops trailing whitespace; what is left ends visibly and
      keeps a visible first character. */
  function TrimEnd(s: string): (r: string)
    ensures |r| <= |s|
    ensures r != "" ==> !IsSpace(r[|r| - 1])
    ensures s != "" && !IsSpace(s[0]) ==> r != "" && r[0] == s[0]
  {
    if |s| > 0 && IsSpace(s[|s| - 1]) then TrimEnd(s[..|s| - 1]) else s
  }

  /** `trim()`: the string without leading and trailing whitespace; what is
      left starts and ends with a visible character. */
  function Trim(s: string): (r: string)
    ensures |r| <= |s|
    ensures r != "" ==> !IsSpace(r[0]) && !IsSpace(r[|r| - 1])
  {
    TrimEnd(TrimStart(s))
  }

  /** `trimStart` removes exactly a leading run of whitespace: the result is
      a suffix of the input and everything before it is whitespace. */
  lemma {:induction false} TrimStartDrops(s: string)
    ensures |TrimStart(s)| <= |s| && TrimStart(s) == s[|s| - |TrimStart(s)|..]
    ensures forall k :: 0 <= k < |s| - |TrimStart(s)| ==> IsSpace(s[k])
  {
    if |s| > 0 && IsSpace(s[0]) {
      TrimStartDrops(s[1..]);
      assert s[1..][|s[1..]| - |TrimStart(s[1..])|..] == s[|s| - |TrimStart(s)|..];
      forall k | 1 <= k < |s| - |TrimStart(s)|
        ensures IsSpace(s[k])
      {
        assert s[k] == s[1..][k - 1];
      }
    }
  }

  /** `trimEnd` removes exactly a trailing run of whitespace: the result is
      a prefix of the input and everything after it is whitespace. */
  lemma {:induction false} TrimEndDrops(s: string)
    ensures |TrimEnd(s)| <= |s| && TrimEnd(s) == s[..|TrimEnd(s)|]
    ensures forall k :: |TrimEnd(s)| <= k < |s| ==> IsSpace(s[k])
  {
    if |s| > 0 && IsSpace(s[|s| - 1]) {
      var front := s[..|s| - 1];
      TrimEndDrops(front);
      assert front[..|TrimEnd(s)|] == s[..|TrimEnd(s)|];
      forall k | |TrimEnd(s)| <= k < |s| - 1
        ensures IsSpace(s[k])
      {
        assert s[k] == front[k];
      }
    }
  }

  /** `trim()` cuts the input at two points: whitespace before, whitespace
      after, and the trimmed string in between. */
  lemma TrimCuts(s: string)
    ensures var a := |s| - |TrimStart(s)|;
      && a + |Trim(s)| <= |s| && Trim(s) == s[a..a + |Trim(s)|]
      && (forall k :: 0 <= k < a ==> IsSpace(s[k]))
      && (forall k :: a + |Trim(s)| <= k < |s| ==> IsSpace(s[k]))
  {
    var a := |s| - |TrimStart(s)|;
    TrimStartDrops(s);
    TrimEndDrops(TrimStart(s));
    var t := TrimStart(s);
    assert Trim(s) == t[..|Trim(s)|];
    assert t[..|Trim(s)|] == s[a..a + |Trim(s)|];
    forall k | a + |Trim(s)| <= k < |s|
      ensures IsSpace(s[k])
    {
      assert s[k] == t[k - a];
    }
  }

  /** A string trims to "" exactly when it has no visible character: the
      emptiness test `!s.trim()` rejects the whitespace-only inputs. */
  lemma {:induction false} TrimEmptyIffBlank(s: string)
    ensures Trim(s) == "" <==> !HasVisible(s)
  {
    TrimStartBlank(s);
  }

  lemma {:induction false} TrimStartBlank(s: string)
    ensures TrimStart(s) == "" <==> !HasVisible(s)
    ensures TrimStart(s) != "" ==> !IsSpace(TrimStart(s)[0])
  {
    if |s| > 0 && IsSpace(s[0]) {
      TrimStartBlank(s[1..]);
      if HasVisible(s[1..]) {
        var i :| 0 <= i < |s[1..]| && !IsSpace(s[1..][i]);
        assert !IsSpace(s[i + 1]);
      }
      if HasVisible(s) {
        var i :| 0 <= i < |s| && !IsSpace(s[i]);
        assert !IsSpace(s[1..][i - 1]);
      }
    } else if |s| > 0 {
      assert !IsSpace(s[0]);
    }
  }

  // ---------------------------------------------------------------------------
  // validateForm

  datatype FormData = FormData(name: string, email: string, message: string)

  const NameMessage := "Please enter your name."
  const EmailMessage := "Please enter a valid email address."
  const BodyMessage := "Please enter your message."
  const SentMessage := "Thank you! Your message has been sent successfully."
  const FailedMessage := "Failed to send message. Please try again or contact directly."

  /** Outcome of validation: accepted, or the message of the first failing rule. */
  datatype Verdict = Accepted | Rejected(message: string)

  /** `validateForm`: name, then e-mail, then message; the first failing rule
      decides the (only) message shown. */
  function ValidateForm(d: FormData): (v: Verdict)
    ensures v == Accepted <==> HasVisible(d.name) && IsValidEmail(d.email) && HasVisible(d.message)
    ensures v == Rejected(NameMessage) <==> !HasVisible(d.name)
    ensures v == Rejected(EmailMessage) <==> HasVisible(d.name) && !IsValidEmail(d.email)
    ensures v == Rejected(BodyMessage) <==>
              HasVisible(d.name) && IsValidEmail(d.email) && !HasVisible(d.message)
  {
    TrimEmptyIffBlank(d.name);
    TrimEmptyIffBlank(d.message);
    assert IsValidEmail(d.email) ==> Trim(d.email) != "" by {
      if IsValidEmail(d.email) {
        ValidEmailShape(d.email);
      }
    }
    if Trim(d.name) == "" then Rejected(NameMessage)
    else if Trim(d.email) == "" || !IsValidEmail(d.email) then Rejected(EmailMessage)
    else if Trim(d.message) == "" then Rejected(BodyMessage)
    else Accepted
  }

  /** The documented form inputs: blank fields and malformed addresses are
      refused, the well-formed one is accepted. */
  lemma ValidationExamples()
    ensures ValidateForm(FormData("", "a@b.co", "hi")) == Rejected(NameMessage)
    ensures ValidateForm(FormData(" \t", "a@b.co", "hi")) == Rejected(NameMessage)
    ensures ValidateForm(FormData("A", "foo@bar", "hi")) == Rejected(EmailMessage)
    ensures ValidateForm(FormData("A", "a@b.co", "  ")) == Rejected(BodyMessage)
    ensures ValidateForm(FormData("A", "a@b.co", "hi")) == Accepted
  {
    EmailExamples();
    assert HasVisible("A") by { assert !IsSpace("A"[0]); }
    assert HasVisible("hi") by { assert !IsSpace("hi"[0]); }
  }

  // ---------------------------------------------------------------------------
  // The form controller

  datatype MessageKind = Success | Error

  function KindName(k: MessageKind): string {
    match k
    case Success => "success"
    case Error => "error"
  }

  /** The form with its current field values, the optional status-message
      element, and the optional submit button with its optional label and
      spinner children. `buttonLoading` is the button's `loading` class,
      `buttonDisabled` its `disabled` attribute, and `textDisplay` and
      `spinnerDisplay` the inline `display` styles of the two children (""
      while unset). `sends` records every submission handed to the sending
      service; `loadingCalls` every call of `setLoadingState`. */
  class ContactForm {
    var fields: FormData
    const hasMessageElement: bool
    var messageText: string
    var messageClass: string
    var messageVisible: bool
    const hasButton: bool
    const hasButtonText: bool
    const hasButtonSpinner: bool
    var buttonLoading: bool
    var buttonDisabled: bool
    var textDisplay: string
    var spinnerDisplay: string
    var loadingCalls: seq<bool>
    var sends: seq<FormData>

    constructor (hasMessageElement: bool, hasButton: bool, hasButtonText: bool, hasButtonSpinner: bool)
      ensures this.hasMessageElement == hasMessageElement && this.hasButton == hasButton
      ensures this.hasButtonText == hasButtonText && this.hasButtonSpinner == hasButtonSpinner
      ensures fields == FormData("", "", "") && sends == [] && loadingCalls == []
      ensures !buttonLoading && !buttonDisabled && textDisplay == "" && spinnerDisplay == ""
      ensures !messageVisible && messageClass == "form-message"
    {
      this.hasMessageElement := hasMessageElement;
      this.hasButton := hasButton;
      this.hasButtonText := hasButtonText;
      this.hasButtonSpinner := hasButtonSpinner;
      buttonDisabled := false;
      textDisplay := "";
      spinnerDisplay := "";
      fields := FormData("", "", "");
      messageText := "";
      messageClass := "form-message";
      messageVisible := false;
      buttonLoading := false;
      loadingCalls := [];
      sends := [];
    }

    /** The visitor edits the fields. */
    method Fill(d: FormData)
      modifies this`fields
      ensures fields == d
    {
      fields := d;
    }

    /** `showMessage`: shows `text` styled by `kind`; a no-op without the
        message element. */
    method ShowMessage(text: string, kind: MessageKind)
      modifies this`messageText, this`messageClass, this`messageVisible
      ensures hasMessageElement ==>
                messageText == text && messageClass == "form-message " + KindName(kind) && messageVisible
      ensures !hasMessageElement ==> unchanged(this)
    {
      if !hasMessageElement {
        return;
      }
      messageText := text;
      messageClass := "form-message " + KindName(kind);
      messageVisible := true;
    }

    /** `hideMessage`, the 5-second timer after `showMessage`. */
    method HideMessage()
      modifies this`messageClass, this`messageVisible
      ensures hasMessageElement ==> !messageVisible && messageClass == "form-message"
      ensures !hasMessageElement ==> unchanged(this)
    {
      if hasMessageElement {
        messageVisible := false;
        messageClass := "form-message";
      }
    }

    /** `setLoadingState`: with a submit button, the `loading` class and the
        `disabled` attribute follow `loading`, the label hides while the
        spinner shows, and the reverse afterwards; each child is touched only
        when present, and nothing changes without the button. */
    method SetLoadingState(loading: bool)
      modifies this`buttonLoading, this`buttonDisabled, this`textDisplay, this`spinnerDisplay, this`loadingCalls
      ensures loadingCalls == old(loadingCalls) + [loading]
      ensures buttonLoading == (if hasButton then loading else old(buttonLoading))
      ensures buttonDisabled == (if hasButton then loading else old(buttonDisabled))
      ensures textDisplay == (if hasButton && hasButtonText then (if loading then "none" else "inline")
                              else old(textDisplay))
      ensures spinnerDisplay == (if hasButton && hasButtonSpinner then (if loading then "flex" else "none")
                                 else old(spinnerDisplay))
    {
      loadingCalls := loadingCalls + [loading];
      if !hasButton {
        return;
      }
      buttonLoading := loading;
      buttonDisabled := loading;
      if hasButtonText {
        textDisplay := if loading then "none" else "inline";
      }
      if hasButtonSpinner {
        spinnerDisplay := if loading then "flex" else "none";
      }
    }

    /** The part of `handleSubmit` after validation: the form is sent
        between `loading` on and off, then confirmed and cleared, or the
        failure is reported. */
    method SendAccepted(sendFails: bool)
      modifies this`fields, this`sends, this`messageText, this`messageClass, this`messageVisible
      modifies this`buttonLoading, this`buttonDisabled, this`textDisplay, this`spinnerDisplay, this`loadingCalls
      ensures sends == old(sends) + [old(fields)]
      ensures loadingCalls == old(loadingCalls) + [true, false]
      ensures buttonLoading == (if hasButton then false else old(buttonLoading))
      ensures buttonDisabled == (if hasButton then false else old(buttonDisabled))
      ensures textDisplay == (if hasButton && hasButtonText then "inline" else old(textDisplay))
      ensures spinnerDisplay == (if hasButton && hasButtonSpinner then "none" else old(spinnerDisplay))
      ensures fields == (if sendFails then old(fields) else FormData("", "", ""))
      ensures hasMessageElement ==>
                && messageText == (if sendFails then FailedMessage else SentMessage)
                && messageClass == (if sendFails then "form-message error" else "form-message success")
                && messageVisible
      ensures !hasMessageElement ==>
                messageText == old(messageText) && messageClass == old(messageClass)
                && messageVisible == old(messageVisible)
    {
      var data := fields;
      SetLoadingState(true);
      sends := sends + [data];
      if !sendFails {
        ShowMessage(SentMessage, Success);
        fields := FormData("", "", "");
      } else {
        ShowMessage(FailedMessage, Error);
      }
      SetLoadingState(false);
    }

    /** `handleSubmit`. `sendFails` is the outcome of the sending service
        (the placeholder in the source always succeeds). A rejected form
        shows its rule's message and never enters the loading state nor
        sends; an accepted one is sent between `loading` on and off, then
        confirms and clears the form, or reports the failure. */
    method HandleSubmit(sendFails: bool)
      modifies this`fields, this`sends, this`messageText, this`messageClass, this`messageVisible
      modifies this`buttonLoading, this`buttonDisabled, this`textDisplay, this`spinnerDisplay, this`loadingCalls
      ensures ValidateForm(old(fields)).Rejected? ==>
          && fields == old(fields) && sends == old(sends) && loadingCalls == old(loadingCalls)
          && buttonLoading == old(buttonLoading) && buttonDisabled == old(buttonDisabled)
          && textDisplay == old(textDisplay) && spinnerDisplay == old(spinnerDisplay)
          && (hasMessageElement ==>
                messageText == ValidateForm(old(fields)).message && messageClass == "form-message error")
      ensures ValidateForm(old(fields)).Accepted? ==>
          && sends == old(sends) + [old(fields)]
          && loadingCalls == old(loadingCalls) + [true, false]
          && (hasButton ==> !buttonLoading && !buttonDisabled)
          && (!hasButton ==> buttonLoading == old(buttonLoading) && buttonDisabled == old(buttonDisabled))
          && textDisplay == (if hasButton && hasButtonText then "inline" else old(textDisplay))
          && spinnerDisplay == (if hasButton && hasButtonSpinner then "none" else old(spinnerDisplay))
          && fields == (if sendFails then old(fields) else FormData("", "", ""))
          && (hasMessageElement ==>
                && messageText == (if sendFails then FailedMessage else SentMessage)
                && messageClass == (if sendFails then "form-message error" else "form-message success"))
      ensures hasMessageElement ==> messageVisible
      ensures !hasMessageElement ==>
                messageText == old(messageText) && messageClass == old(messageClass)
                && messageVisible == old(messageVisible)
    {
      var v := ValidateForm(fields);
      if v.Rejected? {
        ShowMessage(v.message, Error);
        return;
      }
      SendAccepted(sendFails);
    }
  }
}
