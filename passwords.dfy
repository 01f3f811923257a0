/**
 * The master-password dialog (`PasswordDialog` in password_dialog.py): the
 * acceptance checks, the header text, the warning and the show-password
 * toggle.
 */
module Passwords {
  import opened Text
  import opened Dialog

  const CreateMode := "create"
  const VerifyMode := "verify"
  const MinPasswordLength := 4
  /** `Qt.Checked`, the state a ticked check box reports. */
  const QtChecked := 2

  datatype EchoMode = NormalEcho | PasswordEcho

  datatype Refusal = EmptyPassword | TooShort | Mismatch

  datatype Check = Accept(password: string) | Refuse(why: Refusal)

  /** The text `show_error` displays for each refusal. */
  function ErrorMessage(why: Refusal): string {
    match why
    case EmptyPassword => "Please enter a password."
    case TooShort => "Password must be at least 4 characters long."
    case Mismatch => "Passwords do not match."
  }

  /** The checks of `accept_password`, in order. Any mode other than "create"
      behaves as verification; the confirmation field exists only in create mode. */
  function CheckPassword(mode: string, passwordText: string, confirmText: string): (r: Check)
    ensures r.Accept? ==> && r.password == Strip(passwordText) && r.password != []
                          && (mode == CreateMode ==> |r.password| >= MinPasswordLength
                                                     && r.password == Strip(confirmText))
    ensures mode != CreateMode ==> r.Accept? || r == Refuse(EmptyPassword)
  {
    var password := Strip(passwordText);
    if password == [] then Refuse(EmptyPassword)
    else if mode == CreateMode && |password| < MinPasswordLength then Refuse(TooShort)
    else if mode == CreateMode && password != Strip(confirmText) then Refuse(Mismatch)
    else Accept(password)
  }

  /** Each refusal happens exactly when its check is the first to fail: empty
      or whitespace-only input in either mode, then (creating only) fewer than
      four characters, then a confirmation that differs. */
  lemma {:induction false} PasswordRefusals(mode: string, passwordText: string, confirmText: string)
    ensures var r := CheckPassword(mode, passwordText, confirmText);
            && (r == Refuse(EmptyPassword) <==> IsBlank(passwordText))
            && (r == Refuse(TooShort) <==>
                  !IsBlank(passwordText) && mode == CreateMode && |Strip(passwordText)| < MinPasswordLength)
            && (r == Refuse(Mismatch) <==>
                  && !IsBlank(passwordText) && mode == CreateMode
                  && |Strip(passwordText)| >= MinPasswordLength
                  && Strip(passwordText) != Strip(confirmText))
            && (mode != CreateMode ==> (r.Accept? <==> !IsBlank(passwordText)))
  {
    StripEmptyIffBlank(passwordText);
  }

  /** A created password is accepted exactly when it has at least four
      characters after stripping and equals the stripped confirmation. */
  lemma {:induction false} CreateAccepted(passwordText: string, confirmText: string)
    ensures CheckPassword(CreateMode, passwordText, confirmText).Accept? <==>
              |Strip(passwordText)| >= MinPasswordLength && Strip(passwordText) == Strip(confirmText)
  {
    StripEmptyIffBlank(passwordText);
  }

  const ErrorSubtitlePrefix := "Incorrect password. Attempt "
  const ErrorSubtitleSuffix := " of 3"

  /** The header subtitle chosen in `setup_ui`. */
  function Subtitle(mode: string, attempts: int): string {
    if mode == CreateMode then "Create your master password"
    else if attempts > 1 then ErrorSubtitlePrefix + IntToString(attempts) + ErrorSubtitleSuffix
    else "Enter your master password"
  }

  /** After a failed attempt the subtitle carries the attempt number, which
      reads back from the text. */
  lemma {:induction false} SubtitleShowsAttempt(mode: string, attempts: int)
    requires mode != CreateMode && attempts > 1
    ensures var s := Subtitle(mode, attempts);
            && StartsWith(s, ErrorSubtitlePrefix) && EndsWith(s, ErrorSubtitleSuffix)
            && |s| > |ErrorSubtitlePrefix| + |ErrorSubtitleSuffix|
            && var digits := s[|ErrorSubtitlePrefix|..|s| - |ErrorSubtitleSuffix|];
               (forall i :: 0 <= i < |digits| ==> '0' <= digits[i] <= '9') && DecimalValue(digits) == attempts
  {
    var s := Subtitle(mode, attempts);
    var d := NatToDecimal(attempts);
    assert s == ErrorSubtitlePrefix + d + ErrorSubtitleSuffix;
    assert s[|ErrorSubtitlePrefix|..|s| - |ErrorSubtitleSuffix|] == d;
    assert s[..|ErrorSubtitlePrefix|] == ErrorSubtitlePrefix;
    assert s[|s| - |ErrorSubtitleSuffix|..] == ErrorSubtitleSuffix;
    DecimalRoundTrip(attempts);
  }

  /** The deletion warning below the password field. */
  predicate ShowsWarning(mode: string, attempts: int) {
    mode == VerifyMode && attempts > 1
  }

  /** The warning comes only with the "Incorrect password" subtitle; a mode
      that is neither "create" nor "verify" gets that subtitle without it. */
  lemma {:induction false} WarningImpliesErrorSubtitle(mode: string, attempts: int)
    ensures ShowsWarning(mode, attempts) ==> StartsWith(Subtitle(mode, attempts), ErrorSubtitlePrefix)
    ensures !ShowsWarning("", 2) && StartsWith(Subtitle("", 2), ErrorSubtitlePrefix)
  {
    if ShowsWarning(mode, attempts) {
      SubtitleShowsAttempt(mode, attempts);
    }
    SubtitleShowsAttempt("", 2);
  }

  datatype PasswordState = PasswordState(
    passwordText: string,
    confirmText: string,
    password: string,
    passwordEcho: EchoMode,
    confirmEcho: Option<EchoMode>,
    error: Option<string>,
    result: DialogResult)

  /** `accept_password()`. */
  function AcceptStep(mode: string, d: PasswordState): PasswordState {
    match CheckPassword(mode, d.passwordText, d.confirmText)
    case Refuse(why) => d.(error := Some(ErrorMessage(why)))
    case Accept(p) => d.(password := p, result := Accepted)
  }

  /** A refused password changes neither the stored password nor the dialog
      result; an accepted one closes the dialog with the stripped input. */
  lemma {:induction false} AcceptEffects(mode: string, d: PasswordState)
    ensures var d' := AcceptStep(mode, d);
            && d'.passwordText == d.passwordText && d'.confirmText == d.confirmText
            && d'.passwordEcho == d.passwordEcho && d'.confirmEcho == d.confirmEcho
            && (Strip(d.passwordText) == [] ==> d'.password == d.password && d'.result == d.result)
            && (d'.result == Accepted && d.result != Accepted ==> d'.password == Strip(d.passwordText))
            && (d'.password != d.password ==> d'.password == Strip(d.passwordText) && d'.result == Accepted)
  {
  }

  /** `toggle_password_visibility(state)`. */
  function ToggleStep(mode: string, d: PasswordState, state: int): PasswordState {
    var echo := if state == QtChecked then NormalEcho else PasswordEcho;
    d.(passwordEcho := echo, confirmEcho := if mode == CreateMode then Some(echo) else d.confirmEcho)
  }

  class PasswordDialog {
    const mode: string
    const attempts: int
    const subtitle: string
    const showsWarning: bool
    var passwordText: string
    var confirmText: string
    var password: string
    var passwordEcho: EchoMode
    /** None when the mode has no confirmation field. */
    var confirmEcho: Option<EchoMode>
    var error: Option<string>
    var result: DialogResult

    function State(): PasswordState
      reads this
    {
      PasswordState(passwordText, confirmText, password, passwordEcho, confirmEcho, error, result)
    }

    /** `__init__` and `setup_ui`: both fields hidden, no password yet. */
    constructor (mode: string := VerifyMode, attempts: int := 1)
      ensures this.mode == mode && this.attempts == attempts
      ensures subtitle == Subtitle(mode, attempts) && showsWarning == ShowsWarning(mode, attempts)
      ensures State().password == "" && State().result == Open && State().error == None
      ensures State().passwordEcho == PasswordEcho
      ensures State().confirmEcho == if mode == CreateMode then Some(PasswordEcho) else None
      ensures State().passwordText == "" && State().confirmText == ""
    {
      this.mode := mode;
      this.attempts := attempts;
      subtitle := Subtitle(mode, attempts);
      showsWarning := mode == VerifyMode && attempts > 1;
      passwordText := "";
      confirmText := "";
      password := "";
      passwordEcho := PasswordEcho;
      confirmEcho := if mode == CreateMode then Some(PasswordEcho) else None;
      error := None;
      result := Open;
    }

    /** The user types into the fields; without a confirmation field the
        second text is ignored. */
    method EditFields(text: string, confirm: string)
      modifies this
      ensures State() == old(State()).(passwordText := text,
                                       confirmText := if mode == CreateMode then confirm else old(confirmText))
    {
      passwordText := text;
      if mode == CreateMode {
        confirmText := confirm;
      }
    }

    method AcceptPassword()
      modifies this
      ensures State() == AcceptStep(mode, old(State()))
    {
      var check := CheckPassword(mode, passwordText, confirmText);
      match check
      case Refuse(why) =>
        error := Some(ErrorMessage(why));
      case Accept(p) =>
        password := p;
        result := Accepted;
    }

    method TogglePasswordVisibility(state: int)
      modifies this
      ensures State() == ToggleStep(mode, old(State()), state)
      ensures passwordEcho == NormalEcho <==> state == QtChecked
      ensures mode == CreateMode ==> confirmEcho == Some(passwordEcho)
      ensures mode != CreateMode ==> confirmEcho == old(confirmEcho)
    {
      if state == QtChecked {
        passwordEcho := NormalEcho;
        if mode == CreateMode {
          confirmEcho := Some(NormalEcho);
        }
      } else {
        passwordEcho := PasswordEcho;
        if mode == CreateMode {
          confirmEcho := Some(PasswordEcho);
        }
      }
    }
  }
}
